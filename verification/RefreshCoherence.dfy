/**
 A published snapshot of the current generation is what a fresh walk of the registry would
 record, although the registry may change at any point of the walk.
 */
module RefreshCoherence {
  import opened Wrappers
  import opened Refresh
  import opened RefreshOwners
  import opened Registry
  import SnapshotBuild

  /** The snapshot holds what a walk of the registry records at its capacity. */
  ghost predicate Current(snaps: seq<Snap>, snap: Option<nat>, walk: seq<Entry>) {
    snap.Some? && snap.value < |snaps| ==> snaps[snap.value].base == Recorded(walk, snaps[snap.value].cap)
  }

  /** A refresh that sampled the current generation has seen a prefix of the registry, or recorded all of it. */
  ghost predicate Faithful(phase: Phase, snaps: seq<Snap>, walk: seq<Entry>, gen: nat) {
    match phase
    case Sampled(g) => g <= gen
    case Walking(g, snap, seen) =>
      g <= gen && (snap < |snaps| ==> |AllNodes(seen)| <= snaps[snap].cap) && (g == gen ==> seen <= walk)
    case Built(g, result) => g <= gen && (g == gen ==> Current(snaps, result, walk))
    case _ => true
  }

  ghost predicate Coherent(s: State) {
    (s.g.genValid ==> s.g.gen <= s.gen && (s.g.gen == s.gen ==> Current(s.snaps, s.g.snapshot, s.walk))) &&
    forall j {:trigger s.jobs[j]} :: j in s.jobs ==> Faithful(s.jobs[j].phase, s.snaps, s.walk, s.gen)
  }

  /** One more entry of the registry still is a prefix of it, and adds at most one node. */
  lemma WalkOn(seen: seq<Entry>, entry: Entry, walk: seq<Entry>)
    ensures |AllNodes(seen + [entry])| <= |AllNodes(seen)| + 1
    ensures seen <= walk && |seen| < |walk| && entry == walk[|seen|] ==> seen + [entry] <= walk
  {
    TablePrefixStays(seen, seen + [entry], |seen|);
  }

  /** A walk's table depends on what has been walked only. */
  lemma {:induction false} TablePrefixStays(seen: seq<Entry>, walk: seq<Entry>, k: nat)
    requires seen <= walk && k <= |seen|
    ensures TableAfter(seen, k) == TableAfter(walk, k)
  {
    if k > 0 {
      TablePrefixStays(seen, walk, k - 1);
      assert IsFirst(seen, k - 1) == IsFirst(walk, k - 1);
    }
  }

  /** A walk that stopped at the end, or at a full table, recorded what the whole registry records. */
  lemma StoppedWalk(seen: seq<Entry>, walk: seq<Entry>, cap: nat)
    requires seen <= walk && cap >= 1 && |AllNodes(seen)| <= cap
    requires |AllNodes(seen)| == cap || |seen| == |walk|
    ensures Recorded(seen, cap) == Recorded(walk, cap)
  {
    TablePrefixStays(seen, walk, |seen|);
    if |seen| == |walk| { assert seen == walk; } else { SnapshotBuild.CutOff(walk, |seen|, cap); }
  }

  ghost predicate Capacities(snaps: seq<Snap>) {
    forall i {:trigger snaps[i]} :: 0 <= i < |snaps| ==> snaps[i].cap >= 1
  }

  /** Changing one snapshot leaves alone every refresh that does not hold it. */
  lemma OthersFaithful(s: State, s': State, job: Job, i: nat)
    requires Accounts(s) && Coherent(s) && s'.walk == s.walk && s'.gen == s.gen && |s.snaps| <= |s'.snaps|
    requires forall k :: 0 <= k < |s.snaps| && k != i ==> s'.snaps[k] == s.snaps[k]
    requires i < |s.snaps| ==> s.snaps[i].owner == OfJob(job)
    ensures forall j {:trigger s.jobs[j]} :: j in s.jobs && j != job ==>
              Faithful(s.jobs[j].phase, s'.snaps, s'.walk, s'.gen)
    ensures s.g.genValid && s.g.gen == s.gen ==> Current(s'.snaps, s.g.snapshot, s'.walk)
  {
    forall j | j in s.jobs && j != job ensures Faithful(s.jobs[j].phase, s'.snaps, s'.walk, s'.gen) {
      assert Faithful(s.jobs[j].phase, s.snaps, s.walk, s.gen);
      assert IsOwned(s.snaps, HeldBy(s.jobs[j]), OfJob(j));
    }
  }

  lemma AllocateKeepsCoherent(s: State, a: Action)
    requires Accounts(s) && Coherent(s) && Enabled(s, a) && a.Allocate?
    ensures Coherent(Step(s, a))
  {
    var s' := Step(s, a);
    OthersFaithful(s, s', a.job, |s.snaps|);
    assert Faithful(s.jobs[a.job].phase, s.snaps, s.walk, s.gen);
    assert |AllNodes([])| == 1;
  }

  lemma FinishKeepsCoherent(s: State, a: Action)
    requires Accounts(s) && Coherent(s) && Capacities(s.snaps) && Enabled(s, a) && a.Finish?
    ensures Coherent(Step(s, a))
  {
    var s' := Step(s, a);
    var p := s.jobs[a.job].phase;
    assert IsOwned(s.snaps, HeldBy(s.jobs[a.job]), OfJob(a.job));
    OthersFaithful(s, s', a.job, p.snap);
    assert Faithful(p, s.snaps, s.walk, s.gen);
    if p.gen == s.gen { StoppedWalk(p.seen, s.walk, s.snaps[p.snap].cap); }
  }

  lemma WalkStepKeepsCoherent(s: State, a: Action)
    requires Coherent(s) && Enabled(s, a) && a.WalkStep?
    ensures Coherent(Step(s, a))
  {
    var p := s.jobs[a.job].phase;
    assert Faithful(p, s.snaps, s.walk, s.gen);
    WalkOn(p.seen, a.entry, s.walk);
  }

  /** Who owns a snapshot does not matter to what it holds. */
  lemma SameTables(s: State, s': State)
    requires Coherent(s) && s'.walk == s.walk && s'.gen == s.gen && |s'.snaps| == |s.snaps|
    requires forall k :: 0 <= k < |s.snaps| ==> s'.snaps[k].base == s.snaps[k].base && s'.snaps[k].cap == s.snaps[k].cap
    ensures forall j {:trigger s.jobs[j]} :: j in s.jobs ==> Faithful(s.jobs[j].phase, s'.snaps, s'.walk, s'.gen)
    ensures s.g.genValid && s.g.gen == s.gen ==> Current(s'.snaps, s.g.snapshot, s'.walk)
  {
    forall j | j in s.jobs ensures Faithful(s.jobs[j].phase, s'.snaps, s'.walk, s'.gen) {
      assert Faithful(s.jobs[j].phase, s.snaps, s.walk, s.gen);
    }
  }

  lemma PublishKeepsCoherent(s: State, job: Job)
    requires Coherent(s) && Enabled(s, Publish(job))
    ensures Coherent(Step(s, Publish(job)))
  {
    var s' := PublishStep(s, job);
    SameTables(s, s');
    assert Faithful(s.jobs[job].phase, s.snaps, s.walk, s.gen);
  }

  /** A refresh goes: the others and the tables stay. */
  lemma RetireKeepsCoherent(s: State, job: Job)
    requires Coherent(s) && Enabled(s, Retire(job))
    ensures Coherent(Step(s, Retire(job)))
  {
    var s' := Step(s, Retire(job));
    SameTables(s, s');
    forall j | j in s'.jobs ensures Faithful(s'.jobs[j].phase, s'.snaps, s'.walk, s'.gen) {
      assert s'.jobs[j] == s.jobs[j];
    }
  }

  lemma EndStepKeepsCoherent(s: State, a: Action)
    requires Coherent(s) && Enabled(s, a) && (a.Cancel? || a.Drain? || a.Take? || a.FreeLock?)
    ensures Coherent(Step(s, a))
  {
    var s' := Step(s, a);
    SameTables(s, s');
    forall j | j in s'.jobs ensures Faithful(s'.jobs[j].phase, s'.snaps, s'.walk, s'.gen) {
      assert s'.jobs[j] == s.jobs[j];
    }
  }

  lemma LifeStepKeepsCoherent(s: State, a: Action)
    requires Coherent(s) && Enabled(s, a)
    requires a.Tick? || a.Init? || a.Prime? || a.Ensure? || a.Enter? || a.Start? || a.Sample? || a.AllocateFails? ||
             a.ReaderLocks? || a.ReaderUnlocks?
    ensures Coherent(Step(s, a))
  {
    var s' := Step(s, a);
    assert s'.snaps == s.snaps;
    forall j | j in s'.jobs ensures Faithful(s'.jobs[j].phase, s'.snaps, s'.walk, s'.gen) {
      if j in s.jobs { assert Faithful(s.jobs[j].phase, s.snaps, s.walk, s.gen); }
    }
  }

  /** After a change nothing sampled before it is current any more. */
  lemma ChangeKeepsCoherent(s: State, a: Action)
    requires Coherent(s) && a.Change?
    ensures Coherent(Step(s, a))
  {
    var s' := Step(s, a);
    forall j | j in s'.jobs ensures Faithful(s'.jobs[j].phase, s'.snaps, s'.walk, s'.gen) {
      assert Faithful(s.jobs[j].phase, s.snaps, s.walk, s.gen);
    }
  }

  lemma StepKeepsCoherent(s: State, a: Action)
    requires Accounts(s) && Capacities(s.snaps) && Coherent(s) && Enabled(s, a)
    ensures Coherent(Step(s, a))
  {
    if a.Allocate? || a.Finish? || a.WalkStep? || a.Publish? {
      BuildStepKeepsCoherent(s, a);
    } else if a.Change? {
      ChangeKeepsCoherent(s, a);
    } else if a.Retire? {
      RetireKeepsCoherent(s, a.job);
    } else if a.Cancel? || a.Drain? || a.Take? || a.FreeLock? {
      EndStepKeepsCoherent(s, a);
    } else {
      LifeStepKeepsCoherent(s, a);
    }
  }

  lemma BuildStepKeepsCoherent(s: State, a: Action)
    requires Accounts(s) && Capacities(s.snaps) && Coherent(s) && Enabled(s, a)
    requires a.Allocate? || a.Finish? || a.WalkStep? || a.Publish?
    ensures Coherent(Step(s, a))
  {
    match a
    case Allocate(_, _, _) => AllocateKeepsCoherent(s, a);
    case Finish(_, _) => FinishKeepsCoherent(s, a);
    case WalkStep(_, _) => WalkStepKeepsCoherent(s, a);
    case Publish(job) => PublishKeepsCoherent(s, job);
  }

  lemma BuildKeepsCapacities(s: State, a: Action)
    requires Capacities(s.snaps) && Enabled(s, a) && BuildStep(a)
    ensures Capacities(Step(s, a).snaps)
  {
  }

  lemma StepKeepsCapacities(s: State, a: Action)
    requires Capacities(s.snaps) && Enabled(s, a)
    ensures Capacities(Step(s, a).snaps)
  {
    if BuildStep(a) { BuildKeepsCapacities(s, a); }
  }
}
