/**
 The comments at kext/sysfs_iokit.cpp:477-479 and :596-600 promise that a truncated snapshot
 does not stay truncated. It does: a snapshot of the current generation is not rebuilt, whether
 or not it is complete. When it can be replaced is settled exactly.
 */
module RefreshTruncation {
  import opened Wrappers
  import opened DevicePath
  import opened Growth
  import opened Refresh
  import opened RefreshGrowth
  import opened RefreshPaths
  import opened RefreshTheorems
  import opened Registry

  // ---------- A snapshot of the current generation stays

  /** The published snapshot is of the current generation, and no refresh will replace it. */
  ghost predicate Fixed(s: State) {
    s.g.snapshot.Some? && s.g.genValid && s.g.gen == s.gen && !Underway(s)
  }

  lemma FixedStays(s: State, a: Action)
    requires Inv(s) && Fixed(s) && Enabled(s, a) && Steady(a, s.gen)
    ensures Fixed(Step(s, a)) && Step(s, a).gen == s.gen && Step(s, a).walk == s.walk
    ensures Step(s, a).g.snapshot == s.g.snapshot && PublishedTable(Step(s, a)) == PublishedTable(s)
  {
    assert !BuildStep(a) && !Installs(s, a) by { OnlyActiveBuilds(s, a); }
    OtherKeepsPublished(s, a);
    if a.Retire? { assert s.active != Some(a.job); }
  }

  /** Only the refresh in flight takes the steps of a build, or installs one. */
  lemma OnlyActiveBuilds(s: State, a: Action)
    requires Inv(s) && Enabled(s, a)
    ensures BuildStep(a) || Installs(s, a) ==> Underway(s)
  {
    if BuildStep(a) || Installs(s, a) { assert s.active == Some(a.job) by { assert s.jobs[a.job] == s.jobs[a.job]; } }
  }

  lemma {:induction false} FixedOnPath(s: State, actions: seq<Action>, t: State)
    requires Inv(s) && Fixed(s) && Path(s, actions, t) && AllSteady(actions, s.gen)
    ensures Inv(t) && Fixed(t) && t.gen == s.gen && t.g.snapshot == s.g.snapshot
    decreases |actions|
  {
    if actions != [] {
      var n := |actions| - 1;
      var q :| Path(s, actions[..n], q) && Moves(q, actions[n], t);
      FixedOnPath(s, actions[..n], q);
      StepKeepsInv(q, actions[n]);
      FixedStays(q, actions[n]);
    }
  }

  /**
   Over a run: from its publication on, a snapshot of the current generation is published until the
   registry changes, teardown takes it, or a vnode operation comes with an older sample.
   */
  lemma {:induction false} StaysPublished(run: seq<State>, actions: seq<Action>, p: nat, k: nat)
    requires IsRun(run, actions) && p < k < |run| && Installs(run[p], actions[p])
    requires run[p].jobs[actions[p].job].phase.gen == run[p].gen
    requires forall j :: p < j < k ==> Steady(actions[j], run[p].gen)
    ensures Fixed(run[k]) && run[k].gen == run[p].gen && run[k].walk == run[p].walk
    ensures run[k].g.snapshot == run[p + 1].g.snapshot && PublishedTable(run[k]) == PublishedTable(run[p + 1])
  {
    if k == p + 1 {
      RunInv(run, actions, p);
      assert Takes(run, actions, p);
      InstallsBuilt(run[p], actions[p]);
    } else {
      StaysPublished(run, actions, p, k - 1);
      RunInv(run, actions, k - 1);
      assert Takes(run, actions, k - 1);
      FixedStays(run[k - 1], actions[k - 1]);
    }
  }

  // ---------- Anything else can be replaced

  lemma {:induction false} JobBound(ids: set<Job>) returns (n: nat)
    ensures forall j :: j in ids ==> j.id < n
    decreases |ids|
  {
    if ids == {} {
      n := 0;
    } else {
      var j :| j in ids;
      n := JobBound(ids - {j});
      if j.id >= n { n := j.id + 1; }
    }
  }

  /** What a vnode operation needs to have a refresh scheduled. */
  ghost predicate Serving(s: State) {
    Inv(s) && Fitted(s) && s.mode == Up && s.hasLock && s.hasCall && s.g.snapshot.Some?
  }

  ghost predicate Stale(s: State) {
    !(s.g.genValid && s.g.gen == s.gen)
  }

  /** The same registry and the same published snapshot. */
  ghost predicate SameView(s: State, t: State) {
    t.walk == s.walk && t.gen == s.gen && t.g.snapshot == s.g.snapshot && PublishedTable(t) == PublishedTable(s) &&
    (Stale(s) <==> Stale(t))
  }

  lemma IdleMove(s: State, a: Action, t: State)
    requires Serving(s) && Enabled(s, a) && !Installs(s, a) && t == Step(s, a)
    requires a.ReaderUnlocks? || a.Publish? || a.Tick? || a.Ensure?
    ensures Serving(t) && SameView(s, t) && Path(s, [a], t)
  {
    StepKeepsInv(s, a);
    StepKeepsFitted(s, a);
    OtherKeepsPublished(s, a);
    assert t.walk == s.walk && t.gen == s.gen && t.mode == Up && t.hasLock && t.hasCall &&
           (Stale(s) <==> Stale(t)) by { IdleFrame(s, a); }
    SinglePath(s, a, t);
  }

  lemma IdleFrame(s: State, a: Action)
    requires Enabled(s, a) && (a.ReaderUnlocks? || a.Publish? || a.Tick? || a.Ensure?) && !Installs(s, a)
    ensures var t := Step(s, a);
            t.walk == s.walk && t.gen == s.gen && t.mode == s.mode && t.hasLock == s.hasLock &&
            t.hasCall == s.hasCall && (Stale(s) <==> Stale(t))
  {
  }

  lemma SinglePath(s: State, a: Action, t: State)
    requires Moves(s, a, t)
    ensures Path(s, [a], t)
  {
    assert Path(s, [], s) && [a][..0] == [];
  }

  lemma ReaderLeaves(s: State) returns (t: State)
    requires Serving(s) && s.reader.Some?
    ensures Path(s, [ReaderUnlocks], t) && Serving(t) && SameView(s, t) && t.reader.None? && t.active == s.active
    ensures t.jobs == s.jobs
  {
    t := Step(s, ReaderUnlocks);
    IdleMove(s, ReaderUnlocks, t);
  }

  lemma FailureIsSaid(s: State) returns (a: Action, t: State)
    requires Serving(s) && s.reader.None? && s.active.Some? && !Underway(s)
    ensures Path(s, [a], t) && Steady(a, s.gen) && Serving(t) && SameView(s, t) && t.reader.None? && t.active.None?
  {
    a := Publish(s.active.value);
    assert s.active.value in s.jobs;
    t := Step(s, a);
    IdleMove(s, a, t);
  }

  /** The reader leaves, and a refresh that failed says so. */
  lemma Settles(s: State) returns (actions: seq<Action>, t: State)
    requires Serving(s)
    ensures Path(s, actions, t) && AllSteady(actions, s.gen) && Serving(t) && SameView(s, t) && t.reader.None?
    ensures if Underway(s) then Going(t) else t.active.None?
  {
    actions, t := [], s;
    if s.reader.Some? {
      t := ReaderLeaves(s);
      actions := [ReaderUnlocks];
    }
    if !Underway(s) && s.active.Some? {
      var a, u := FailureIsSaid(t);
      PathConcat(s, actions, t, [a], u);
      actions, t := actions + [a], u;
    }
  }

  lemma TimePasses(s: State, wait: nat) returns (t: State)
    requires Serving(s) && s.reader.None? && s.active.None?
    ensures Path(s, [Tick(wait)], t) && Serving(t) && SameView(s, t) && t.reader.None? && t.active.None?
    ensures t.jobs == s.jobs
    ensures t.now - Uptime(t) >= wait && t.now - t.g.lastBuild >= wait
  {
    t := Step(s, Tick(wait));
    IdleMove(s, Tick(wait), t);
    assert s.g.snapshot.value < |s.snaps| && s.snaps[s.g.snapshot.value].uptime <= s.now;
  }

  lemma RefreshIsAsked(s: State, job: Job, sampled: nat) returns (t: State)
    requires Serving(s) && s.reader.None? && s.active.None? && job !in s.jobs && sampled <= s.gen
    requires !(s.g.genValid && s.g.gen == sampled) && s.now - Uptime(s) > TTL && s.now - s.g.lastBuild >= MIN_REBUILD
    ensures Path(s, [Ensure(job, sampled)], t) && Serving(t) && SameView(s, t) && Going(t) && Fresh(t)
  {
    t := Step(s, Ensure(job, sampled));
    IdleMove(s, Ensure(job, sampled), t);
  }

  /** Time passes, a vnode operation comes by with a sample that differs, and a refresh is scheduled. */
  lemma Asks(s: State, sampled: nat) returns (wait: nat, job: Job, t: State)
    requires Serving(s) && s.reader.None? && s.active.None? && sampled <= s.gen && !(s.g.genValid && s.g.gen == sampled)
    ensures Path(s, [Tick(wait), Ensure(job, sampled)], t) && Serving(t) && SameView(s, t) && Going(t) && Fresh(t)
  {
    var n := JobBound(s.jobs.Keys);
    wait, job := MIN_REBUILD + TTL + 1, Job(n);
    var q := TimePasses(s, wait);
    t := RefreshIsAsked(q, job, sampled);
    PathConcat(s, [Tick(wait)], q, [Ensure(job, sampled)], t);
    assert [Tick(wait)] + [Ensure(job, sampled)] == [Tick(wait), Ensure(job, sampled)];
  }

  /** A path that replaces the published snapshot, the registry not changing. */
  ghost predicate Replaces(s: State, actions: seq<Action>, t: State) {
    Path(s, actions, t) && AllSteady(actions, s.gen) && t.g.snapshot != s.g.snapshot
  }

  /** Up to date, idle, and at the capacity the published count asks for. */
  ghost predicate Rebuilt(s: State, t: State) {
    t.g.genValid && t.g.gen == t.gen && t.active.None? &&
    PublishedTable(t) == Recorded(s.walk, Capacity(|PublishedTable(s)|))
  }

  lemma FinishReplacing(s: State, first: seq<Action>, q: State) returns (actions: seq<Action>, t: State)
    requires Serving(s) && Path(s, first, q) && AllSteady(first, s.gen) && Serving(q) && SameView(s, q) && Going(q)
    ensures Replaces(s, actions, t) && t.walk == s.walk && t.gen == s.gen && t.reader.None? && Serving(t)
    ensures Fresh(q) ==> Rebuilt(s, t)
  {
    var rest;
    rest, t := Arrives(q);
    PathConcat(s, first, q, rest, t);
    actions := first + rest;
    if Fresh(q) {
      var cap :| TableOf(q, t, cap);
    }
  }

  lemma CanBeReplaced(s: State) returns (actions: seq<Action>, t: State)
    requires Serving(s) && (Stale(s) || Underway(s))
    ensures Replaces(s, actions, t) && t.walk == s.walk && t.gen == s.gen && t.reader.None? && Serving(t)
    ensures !Underway(s) ==> Rebuilt(s, t)
  {
    var first, q := Settles(s);
    if !Underway(s) { first, q := AsksToo(s, first, q); }
    actions, t := FinishReplacing(s, first, q);
  }

  lemma AsksToo(s: State, first: seq<Action>, q: State) returns (actions: seq<Action>, t: State)
    requires Path(s, first, q) && AllSteady(first, s.gen) && SameView(s, q)
    requires Serving(q) && Stale(q) && q.reader.None? && q.active.None?
    ensures Path(s, actions, t) && AllSteady(actions, s.gen) && Serving(t) && SameView(s, t) && Going(t) && Fresh(t)
  {
    var wait, job;
    wait, job, t := Asks(q, q.gen);
    PathConcat(s, first, q, [Tick(wait), Ensure(job, q.gen)], t);
    actions := first + [Tick(wait), Ensure(job, q.gen)];
  }

  /**
   The published snapshot can be replaced while the registry stays as it is, just if it is of
   another generation or a refresh is already on its way to replace it. Its being truncated is
   not a reason.
   */
  lemma ReplaceableIff(run: seq<State>, actions: seq<Action>, i: nat)
    requires IsRun(run, actions) && i < |run|
    requires run[i].mode == Up && run[i].hasLock && run[i].hasCall && run[i].g.snapshot.Some?
    ensures (exists more, t :: Replaces(run[i], more, t)) <==> Stale(run[i]) || Underway(run[i])
  {
    var s := run[i];
    RunInv(run, actions, i);
    RunFitted(run, actions, i);
    if Stale(s) || Underway(s) {
      var more, t := CanBeReplaced(s);
    } else {
      forall more, t ensures !Replaces(s, more, t) {
        if Path(s, more, t) && AllSteady(more, s.gen) { FixedOnPath(s, more, t); }
      }
    }
  }

  /**
   A vnode operation that sampled the generation before the last change and takes the lock only now
   has even a snapshot of the current generation replaced, by a larger one if it is truncated.
   */
  lemma OlderSampleReplaces(s: State, sampled: nat)
    returns (first: seq<Action>, wait: nat, job: Job, rest: seq<Action>, t: State)
    requires Serving(s) && Fixed(s) && sampled < s.gen
    ensures Path(s, first + [Tick(wait), Ensure(job, sampled)] + rest, t)
    ensures AllSteady(first, s.gen) && AllSteady(rest, s.gen) && t.g.snapshot != s.g.snapshot && Rebuilt(s, t)
  {
    var q, r;
    first, q := Settles(s);
    wait, job, r := Asks(q, sampled);
    rest, t := Arrives(r);
    PathConcat(s, first, q, [Tick(wait), Ensure(job, sampled)], r);
    PathConcat(s, first + [Tick(wait), Ensure(job, sampled)], r, rest, t);
    var cap :| TableOf(r, t, cap);
  }

  // ---------- It happens

  /** The module serves a snapshot of the current registry that lacks some of it and will not be replaced. */
  ghost predicate StaysShort(s: State) {
    s.mode == Up && s.hasLock && s.hasCall && Fixed(s) && |AllNodes(s.walk)| <= MAX_NODES &&
    PublishedTable(s) != AllNodes(s.walk)
  }

  lemma StartUp(s: State) returns (actions: seq<Action>, t: State)
    requires Initial(s)
    ensures Path(s, actions, t) && t.mode == Up && t.hasLock && t.hasCall && t.reader.None? && t.walk == []
    ensures t.g.snapshot.None?
    ensures Underway(t) && Fresh(t)
  {
    var start, empty, prime := Init(true, true), Change([]), Prime(Job(0));
    var s1 := Step(s, start);
    var s2 := Step(s1, empty);
    t := Step(s2, prime);
    SinglePath(s, start, s1);
    PathOne(s, [start], s1, empty, s2);
    PathOne(s, [start] + [empty], s2, prime, t);
    actions := [start] + [empty] + [prime];
  }

  lemma PathKeepsInv(s: State, actions: seq<Action>, t: State)
    requires Initial(s) && Path(s, actions, t)
    ensures Inv(t) && Fitted(t)
  {
    var run := PathIsRun(s, actions, t);
    RunInv(run, actions, |run| - 1);
    RunFitted(run, actions, |run| - 1);
  }

  /** The first snapshot of an empty registry holds the root alone. */
  lemma FirstSnapshot(s: State) returns (actions: seq<Action>, t: State)
    requires Initial(s)
    ensures Path(s, actions, t) && Serving(t) && t.reader.None? && t.active.None? && |PublishedTable(t)| == 1
    ensures t.g.genValid && t.g.gen == t.gen
  {
    var first, q := StartUp(s);
    PathKeepsInv(s, first, q);
    var rest;
    rest, t := Arrives(q);
    PathConcat(s, first, q, rest, t);
    actions := first + rest;
    var cap :| TableOf(q, t, cap);
    assert AllNodes([]) == [ROOT];
  }

  lemma RegistryGrows(s: State, walk: seq<Entry>) returns (t: State)
    requires Serving(s) && s.active.None? && s.g.genValid && s.g.gen == s.gen
    ensures Path(s, [Change(walk)], t) && Serving(t) && Stale(t) && !Underway(t) && t.walk == walk
    ensures PublishedTable(t) == PublishedTable(s)
  {
    t := Step(s, Change(walk));
    StepKeepsInv(s, Change(walk));
    StepKeepsFitted(s, Change(walk));
    SinglePath(s, Change(walk), t);
  }

  /** After the registry has outgrown the capacity, the next snapshot is short, and stays so. */
  lemma GrowsShort(s: State, n: nat) returns (actions: seq<Action>, t: State)
    requires Serving(s) && s.active.None? && s.g.genValid && s.g.gen == s.gen
    requires Capacity(|PublishedTable(s)|) <= n < MAX_NODES
    ensures Path(s, actions, t) && StaysShort(t)
  {
    var grow := Change(DeepWalk(n));
    var r := RegistryGrows(s, DeepWalk(n));
    var rest;
    rest, t := CanBeReplaced(r);
    PathConcat(s, [grow], r, rest, t);
    actions := [grow] + rest;
    DeepTable(n, n);
  }

  /**
   The registry grows from nothing to a chain of 66 entries or more: the snapshot built then has room
   for 66 nodes.
   */
  lemma TruncationHappens(s: State, n: nat)
    requires Initial(s) && 66 <= n < 16384
    ensures exists run, actions :: IsRun(run, actions) && run[0] == s && StaysShort(run[|run| - 1])
  {
    var first, q := FirstSnapshot(s);
    var rest, t := GrowsShort(q, n);
    PathConcat(s, first, q, rest, t);
    var run := PathIsRun(s, first + rest, t);
    assert StaysShort(run[|run| - 1]);
  }
}
