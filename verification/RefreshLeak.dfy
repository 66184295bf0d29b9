/**
 A run that strands memory: a build fails half-way through its allocations, and teardown does
 not get back what it had got (kext/sysfs_iokit.cpp:496-502).
 */
module RefreshLeak {
  import opened Wrappers
  import opened Refresh
  import opened RefreshPaths

  /** Down, with nothing left to do, and arrays still allocated. */
  ghost predicate Stranded(s: State, arrays: nat) {
    s.mode == Down && s.jobs == map[] && s.tables == arrays && s.snapBytes == 0
  }

  /** A state with one refresh, which sysfs_iokit_prime() runs itself. */
  ghost predicate Priming(s: State, phase: Phase, arrays: nat) {
    && s.mode == Up && s.hasLock && s.hasCall && s.g == CLEARED.(building := true) && s.reader.None? && !s.cancelled
    && s.jobs == map[Job(0) := JobRec(phase, true)] && s.active == Some(Job(0))
    && s.tables == arrays && s.snapBytes == 0 && s.snaps == []
  }

  /** A state with no refresh and no snapshot. */
  ghost predicate Idle(s: State, mode: Mode, arrays: nat) {
    && s.mode == mode && s.hasLock && s.hasCall == (mode == Up || mode == Stopping) && s.g == CLEARED &&
    s.reader.None? && !s.cancelled
    && s.jobs == map[] && s.active.None? && s.tables == arrays && s.snapBytes == 0 && s.snaps == []
  }

  lemma Primes(s: State) returns (actions: seq<Action>, t: State)
    requires Initial(s)
    ensures Path(s, actions, t) && Priming(t, Started, 0)
  {
    var q := Step(s, Init(true, true));
    t := Step(q, Prime(Job(0)));
    actions := [Init(true, true), Prime(Job(0))];
    TwoSteps(s, Init(true, true), q, Prime(Job(0)), t);
  }

  lemma BuildFails(s: State, arrays: nat) returns (actions: seq<Action>, t: State)
    requires Priming(s, Started, 0) && arrays < 3
    ensures Path(s, actions, t) && Priming(t, Built(s.gen, None), arrays)
  {
    var q := Step(s, Sample(Job(0)));
    t := Step(q, AllocateFails(Job(0), arrays));
    actions := [Sample(Job(0)), AllocateFails(Job(0), arrays)];
    TwoSteps(s, Sample(Job(0)), q, AllocateFails(Job(0), arrays), t);
  }

  lemma Ends(s: State, gen: nat, arrays: nat) returns (actions: seq<Action>, t: State)
    requires Priming(s, Built(gen, None), arrays)
    ensures Path(s, actions, t) && Idle(t, Up, arrays)
  {
    var q := Step(s, Publish(Job(0)));
    t := Step(q, Retire(Job(0)));
    actions := [Publish(Job(0)), Retire(Job(0))];
    TwoSteps(s, Publish(Job(0)), q, Retire(Job(0)), t);
  }

  lemma Drains(s: State, arrays: nat) returns (actions: seq<Action>, t: State)
    requires Idle(s, Up, arrays)
    ensures Path(s, actions, t) && Idle(t, Drained, arrays)
  {
    assert QueuedJobs(s) == {};
    var q := Step(s, Cancel);
    t := Step(q, Drain);
    actions := [Cancel, Drain];
    TwoSteps(s, Cancel, q, Drain, t);
  }

  lemma FreesLock(s: State, arrays: nat) returns (actions: seq<Action>, t: State)
    requires Idle(s, Drained, arrays)
    ensures Path(s, actions, t) && Stranded(t, arrays)
  {
    var q := Step(s, Take);
    t := Step(q, FreeLock);
    actions := [Take, FreeLock];
    TwoSteps(s, Take, q, FreeLock, t);
  }

  /** One or two arrays of a failed build are still allocated when everything is over. */
  lemma ArraysCanBeLost(s: State, arrays: nat)
    requires Initial(s) && 1 <= arrays < 3
    ensures exists run, actions :: IsRun(run, actions) && run[0] == s && Stranded(run[|run| - 1], arrays)
  {
    var a, s1 := Primes(s);
    var b, s2 := BuildFails(s1, arrays);
    var c, s3 := Ends(s2, s1.gen, arrays);
    var d, s4 := Drains(s3, arrays);
    var e, t := FreesLock(s4, arrays);
    PathConcat(s, a, s1, b, s2);
    PathConcat(s, a + b, s2, c, s3);
    PathConcat(s, a + b + c, s3, d, s4);
    PathConcat(s, a + b + c + d, s4, e, t);
    var run := PathIsRun(s, a + b + c + d + e, t);
    assert Stranded(run[|run| - 1], arrays);
  }
}
