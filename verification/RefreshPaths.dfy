/**
 Sequences of steps from one state of the refresh machine to another, and the one that brings
 the refresh in flight to its publication.
 */
module RefreshPaths {
  import opened Growth
  import opened Refresh
  import opened RefreshCoherence
  import opened RefreshGrowth
  import opened RefreshOwners
  import opened RefreshTheorems
  import opened Registry

  /** The actions lead from s to t. */
  ghost predicate Path(s: State, actions: seq<Action>, t: State)
    decreases |actions|
  {
    if actions == [] then s == t
    else
      var n := |actions| - 1;
      exists q :: Path(s, actions[..n], q) && Moves(q, actions[n], t)
  }

  ghost predicate Moves(s: State, a: Action, t: State) {
    Enabled(s, a) && t == Step(s, a)
  }

  /** The registry stays as it is, vnode operations sample it afresh, and nothing is torn down. */
  ghost predicate Steady(a: Action, gen: nat) {
    !a.Change? && !a.Take? && (a.Ensure? ==> a.sampled == gen)
  }

  ghost predicate AllSteady(actions: seq<Action>, gen: nat) {
    forall j :: 0 <= j < |actions| ==> Steady(actions[j], gen)
  }

  lemma PathOne(s: State, actions: seq<Action>, q: State, a: Action, t: State)
    requires Path(s, actions, q) && Moves(q, a, t)
    ensures Path(s, actions + [a], t)
  {
    assert (actions + [a])[..|actions|] == actions;
  }

  /** A longer path ends with a step. */
  lemma PathLast(s: State, actions: seq<Action>, t: State) returns (q: State)
    requires actions != [] && Path(s, actions, t)
    ensures Path(s, actions[..|actions| - 1], q)
    ensures forall p, before :: Path(p, before, q) ==> Path(p, before + [actions[|actions| - 1]], t)
  {
    q :| Path(s, actions[..|actions| - 1], q) && Moves(q, actions[|actions| - 1], t);
    forall p, before | Path(p, before, q) ensures Path(p, before + [actions[|actions| - 1]], t) {
      PathOne(p, before, q, actions[|actions| - 1], t);
    }
  }

  lemma {:induction false} PathConcat(s: State, first: seq<Action>, q: State, second: seq<Action>, t: State)
    requires Path(s, first, q) && Path(q, second, t)
    ensures Path(s, first + second, t)
    decreases |second|
  {
    if second == [] {
      assert first + second == first;
    } else {
      var n := |second| - 1;
      var r := PathLast(q, second, t);
      PathConcat(s, first, q, second[..n], r);
      assert first + second == first + second[..n] + [second[n]];
    }
  }

  lemma TwoSteps(s: State, a: Action, q: State, b: Action, t: State)
    requires Moves(s, a, q) && Moves(q, b, t)
    ensures Path(s, [a, b], t)
  {
    assert Path(s, [], s) && [a][..0] == [];
    assert Path(s, [a], q) && [a, b][..1] == [a];
  }

  /** A path from an initial state is a run. */
  lemma {:induction false} PathIsRun(s: State, actions: seq<Action>, t: State) returns (run: seq<State>)
    requires Path(s, actions, t) && Initial(s)
    ensures IsRun(run, actions) && run[0] == s && run[|run| - 1] == t
    decreases |actions|
  {
    if actions == [] {
      run := [s];
    } else {
      var n := |actions| - 1;
      var q :| Path(s, actions[..n], q) && Moves(q, actions[n], t);
      var before := PathIsRun(s, actions[..n], q);
      run := before + [t];
      forall i: nat | i < |actions| ensures Takes(run, actions, i) {
        if i < n { assert Takes(before, actions[..n], i); }
      }
    }
  }

  // ---------- Bringing a refresh to its publication

  /** A refresh in flight has not failed. */
  ghost predicate Underway(s: State) {
    s.active.Some? && s.active.value in s.jobs &&
    !(s.jobs[s.active.value].phase.Built? && s.jobs[s.active.value].phase.result.None?)
  }

  /** What a refresh needs to go on. */
  ghost predicate Going(s: State) {
    Inv(s) && Fitted(s) && Underway(s) && s.reader.None?
  }

  /** The same registry, published snapshot and refresh. */
  ghost predicate Alike(s: State, t: State) {
    t.walk == s.walk && t.gen == s.gen && t.mode == s.mode && t.hasLock == s.hasLock && t.hasCall == s.hasCall &&
    t.active == s.active &&
    t.g.snapshot == s.g.snapshot && PublishedTable(t) == PublishedTable(s)
  }

  /** How far a refresh is from its publication. */
  ghost function Distance(s: State): nat
    requires Underway(s)
  {
    var p := s.jobs[s.active.value].phase;
    match p
    case Entering => 7 + |s.walk|
    case Queued => 6 + |s.walk|
    case Started => 5 + |s.walk|
    case Sampled(_) => 4 + |s.walk|
    case Walking(_, _, seen) => if |seen| <= |s.walk| then 2 + |s.walk| - |seen| else 2
    case Built(_, _) => 1
    case Retiring(_) => 0
  }

  /** The refresh in flight has sampled, or will sample, the generation that is current. */
  ghost predicate Fresh(s: State)
    requires Underway(s)
  {
    match s.jobs[s.active.value].phase
    case Sampled(g) => g == s.gen
    case Walking(g, _, _) => g == s.gen
    case Built(g, _) => g == s.gen
    case _ => true
  }

  /** One step nearer to the publication. */
  ghost predicate Nearer(s: State, t: State)
    requires Underway(s)
  {
    Going(t) && Alike(s, t) && Distance(t) < Distance(s) && (Fresh(s) ==> Fresh(t))
  }

  /** A step of the build leaves the refresh going. */
  lemma StillGoing(s: State, a: Action, t: State)
    requires Going(s) && Enabled(s, a) && BuildStep(a) && !a.AllocateFails? && a.job == s.active.value
    requires t == Step(s, a)
    ensures Going(t) && Alike(s, t)
  {
    StepKeepsInv(s, a);
    StepKeepsFitted(s, a);
    BuildKeepsPublished(s, a);
  }

  lemma AdvanceWaiting(s: State) returns (a: Action, t: State)
    requires Going(s)
    requires var p := s.jobs[s.active.value].phase; p.Entering? || p.Queued? || p.Started?
    ensures Moves(s, a, t) && Steady(a, s.gen) && Nearer(s, t)
  {
    var job := s.active.value;
    match s.jobs[job].phase {
      case Entering => a := Enter(job);
      case Queued => a := Start(job);
      case Started => a := Sample(job);
    }
    t := Step(s, a);
    StillGoing(s, a, t);
  }

  lemma AdvanceSampled(s: State) returns (a: Action, t: State)
    requires Going(s) && s.jobs[s.active.value].phase.Sampled?
    ensures Moves(s, a, t) && Steady(a, s.gen) && Nearer(s, t)
  {
    a := Allocate(s.active.value, |s.walk|, 0);
    t := Step(s, a);
    AllocateStartsWalk(s, a, t);
    StillGoing(s, a, t);
  }

  lemma AllocateStartsWalk(s: State, a: Action, t: State)
    requires a.Allocate? && Enabled(s, a) && t == Step(s, a)
    ensures a.job in t.jobs && t.walk == s.walk
    ensures t.jobs[a.job].phase == Walking(s.jobs[a.job].phase.gen, |s.snaps|, [])
  {
  }

  lemma AdvanceWalking(s: State) returns (a: Action, t: State)
    requires Going(s) && s.jobs[s.active.value].phase.Walking?
    ensures Moves(s, a, t) && Steady(a, s.gen) && Nearer(s, t)
  {
    var job := s.active.value;
    var p := s.jobs[job].phase;
    assert IsOwned(s.snaps, HeldBy(s.jobs[job]), OfJob(job));
    assert Faithful(p, s.snaps, s.walk, s.gen);
    if p.gen == s.gen && Room(s, job) && |p.seen| < |s.walk| {
      a, t := WalkOne(s);
    } else {
      a, t := FinishWalk(s);
    }
  }

  lemma WalkOne(s: State) returns (a: Action, t: State)
    requires Going(s) && IsWalking(s, s.active.value) && s.jobs[s.active.value].phase.gen == s.gen
    requires Room(s, s.active.value) && |s.jobs[s.active.value].phase.seen| < |s.walk|
    ensures Moves(s, a, t) && Steady(a, s.gen) && Nearer(s, t)
  {
    a := WalkStep(s.active.value, s.walk[|s.jobs[s.active.value].phase.seen|]);
    t := Step(s, a);
    StillGoing(s, a, t);
  }

  lemma FinishWalk(s: State) returns (a: Action, t: State)
    requires Going(s) && IsWalking(s, s.active.value) && Enabled(s, Finish(s.active.value, 0))
    ensures Moves(s, a, t) && Steady(a, s.gen) && Nearer(s, t)
  {
    a := Finish(s.active.value, 0);
    t := Step(s, a);
    StillGoing(s, a, t);
  }

  /** The publication itself. */
  lemma PublishLast(s: State) returns (a: Action, t: State)
    requires Going(s) && s.jobs[s.active.value].phase.Built?
    ensures Moves(s, a, t) && Steady(a, s.gen) && Installed(s, t)
  {
    a := Publish(s.active.value);
    t := Step(s, a);
    var job := s.active.value;
    StepKeepsInv(s, a);
    StepKeepsFitted(s, a);
    InstallsBuilt(s, a);
    assert Faithful(s.jobs[job].phase, s.snaps, s.walk, s.gen);
    assert Fresh(s) ==> TableOf(s, t, s.snaps[ActiveSnap(s).value].cap);
  }

  /** The refresh of s has been published in t; a fresh one is the table of the registry at its capacity. */
  ghost predicate Installed(s: State, t: State)
    requires Underway(s)
  {
    && Inv(t) && Fitted(t) && t.walk == s.walk && t.gen == s.gen && t.mode == s.mode && t.hasLock == s.hasLock &&
    t.hasCall == s.hasCall
    && t.reader.None? && t.active.None? && t.g.snapshot.Some? && t.g.snapshot != s.g.snapshot && t.g.genValid
    && (Fresh(s) ==> t.g.gen == t.gen && exists cap :: TableOf(s, t, cap))
  }

  ghost predicate TableOf(s: State, t: State, cap: nat) {
    cap >= 1 && PublishedTable(t) == Recorded(t.walk, cap) &&
    (s.g.snapshot.Some? ==> cap == Capacity(|PublishedTable(s)|))
  }

  /** A refresh that has not finished its build takes a step. */
  lemma Advance(s: State) returns (a: Action, t: State)
    requires Going(s) && !s.jobs[s.active.value].phase.Built?
    ensures Moves(s, a, t) && Steady(a, s.gen) && Nearer(s, t)
  {
    var p := s.jobs[s.active.value].phase;
    assert !p.Retiring?;
    if p.Walking? { a, t := AdvanceWalking(s); }
    else if p.Sampled? { a, t := AdvanceSampled(s); }
    else { a, t := AdvanceWaiting(s); }
  }

  /** A publication reached from a nearer state is one reached from here. */
  lemma InstalledThrough(s: State, q: State, t: State)
    requires Underway(s) && Nearer(s, q) && Installed(q, t)
    ensures Installed(s, t)
  {
    if Fresh(s) {
      var cap :| TableOf(q, t, cap);
      assert TableOf(s, t, cap);
    }
  }

  /** A refresh that is going can always be brought to its publication, the registry not changing. */
  lemma {:induction false} Arrives(s: State) returns (actions: seq<Action>, t: State)
    requires Going(s)
    ensures Path(s, actions, t) && AllSteady(actions, s.gen) && Installed(s, t)
    decreases Distance(s)
  {
    if s.jobs[s.active.value].phase.Built? {
      var a;
      a, t := PublishLast(s);
      actions := [a];
      PathOne(s, [], s, a, t);
    } else {
      var a, q := Advance(s);
      var rest;
      rest, t := Arrives(q);
      PathOne(s, [], s, a, q);
      PathConcat(s, [a], q, rest, t);
      actions := [a] + rest;
      InstalledThrough(s, q, t);
    }
  }
}
