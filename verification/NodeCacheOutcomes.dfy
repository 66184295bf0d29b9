/**
 How a call of sysfsnode_find() can end: with an error only if the kernel refused it memory or a
 vnode, and otherwise with the vnode.
 */
module NodeCacheOutcomes {
  import opened Wrappers
  import opened NodeCache
  import opened NodeCacheProtocol
  import opened NodeCacheTable
  import opened NodeCacheTheorems

  // ---------- What the kernel has answered

  /** An action by which a call begins, or is given or refused memory or a vnode. */
  ghost predicate Answers(act: Action, c: Call) {
    (act.Begin? || act.Malloc? || act.CreateVnode?) && act.c == c
  }

  /** The kernel refuses call c, and e is the error that stands for it. */
  ghost predicate Refuses(act: Action, c: Call, e: int) {
    (act.Malloc? && act.c == c && act.a.None? && e == ENOMEM) || (act.CreateVnode? && act == CreateVnode(c, None, e))
  }

  /** The last answer among the first k actions to a call that has begun is the one at j. */
  ghost predicate IsLast(acts: seq<Action>, k: nat, c: Call, j: nat) {
    j < k <= |acts| && Answers(acts[j], c) && forall i :: j < i < k ==> !Answers(acts[i], c)
  }

  /** The error the last answer stands for; 0 for an answer that is no refusal. */
  function Meant(act: Action): int {
    match act
    case Malloc(_, a, _) => if a.None? then ENOMEM else 0
    case CreateVnode(_, _, error) => error
    case _ => 0
  }

  ghost function LastMeant(acts: seq<Action>, k: nat, c: Call): int
    requires k <= |acts|
  {
    if k == 0 then 0 else if Answers(acts[k - 1], c) then Meant(acts[k - 1]) else LastMeant(acts, k - 1, c)
  }

  // ---------- A call carries the last answer and no other error

  /** Before the kernel has refused a call there is no error; after, it leaves with that error. */
  ghost predicate Carries(s: State, c: Call, meant: int) {
    c in s.calls ==>
      if s.calls[c].pc in {Created, Exiting, Returned} then s.calls[c].error == meant else meant == 0
  }

  lemma ProceedGoesOn(s: State, c: Call, a: Addr)
    requires c in s.calls && a in s.heap
    ensures c in Proceed(s, c, a).calls && Proceed(s, c, a).calls == s.calls[c := Proceed(s, c, a).calls[c]]
    ensures Proceed(s, c, a).calls[c].pc in {Sleeping, Getting, Creating}
  {
  }

  /** The top of the loop leads on to allocating, sleeping, getting the vnode or creating it, and nowhere else. */
  lemma {:induction false} LoopTopGoesOn(s: State, c: Call)
    requires TableOk(s) && c in s.calls
    ensures c in LoopTop(s, c).calls && LoopTop(s, c).calls == s.calls[c := LoopTop(s, c).calls[c]]
    ensures LoopTop(s, c).calls[c].pc in {Allocating, Sleeping, Getting, Creating}
  {
    var r := s.calls[c];
    FindDecides(s, r.key);
    var s1 := SetCall(s, c, r.(error := 0));
    match FindIn(s.buckets[BucketOf(r.key)], s.heap, r.key)
    case Some(a) => ProceedGoesOn(s1, c, a);
    case None => if r.newNode.Some? { InsertGoesOn(s1, c, r.newNode.value); }
  }

  lemma {:induction false} InsertGoesOn(s: State, c: Call, a: Addr)
    requires |s.buckets| == BUCKETS && c in s.calls
    ensures var t := Proceed(Insert(s, c, a), c, a);
            && c in t.calls && t.calls == s.calls[c := t.calls[c]]
            && t.calls[c].pc in {Sleeping, Getting, Creating}
  {
    ProceedGoesOn(Insert(s, c, a), c, a);
  }

  lemma {:induction false} RetryGoesOn(s: State, c: Call)
    requires Inv(s) && c in s.calls && s.calls[c].pc == GetFailed
    ensures c in RetryAfterGet(s, c).calls && RetryAfterGet(s, c).calls == s.calls[c := RetryAfterGet(s, c).calls[c]]
    ensures RetryAfterGet(s, c).calls[c].pc in {Allocating, Sleeping, Getting, Creating}
  {
    var r := s.calls[c];
    assert CallOk(Abs(s), c);
    if r.newNode.Some? {
      var s1 := SetCall(FreeSpare(s, r.newNode.value), c, r.(newNode := None, target := None));
      SpareKeepsTable(s, s1, r.newNode.value);
      LoopTopGoesOn(s1, c);
    } else {
      LoopTopGoesOn(SetCall(s, c, r.(target := None)), c);
    }
  }

  lemma LockGoesOn(s: State, c: Call, s': State)
    requires Inv(s) && Enabled(s, Lock(c)) && s' == Step(s, Lock(c))
    ensures c in s'.calls && s'.calls == s.calls[c := s'.calls[c]]
    ensures s'.calls[c].pc in {Allocating, Sleeping, Getting, Creating}
  {
    if s.calls[c].pc == GetFailed {
      RetryGoesOn(s, c);
    } else {
      LoopTopGoesOn(s, c);
    }
  }

  lemma FinishCarries(s: State, d: Call, c: Call, meant: int)
    requires Enabled(s, Finish(d)) && s.calls[d].target.value in s.heap && Carries(s, c, meant)
    ensures Carries(Step(s, Finish(d)), c, meant)
  {
  }

  lemma OtherCarries(s: State, act: Action, c: Call, meant: int)
    requires Inv(s) && Enabled(s, act) && Carries(s, c, meant) && !act.Lock? && !act.Finish?
    ensures Carries(Step(s, act), c, if Answers(act, c) then Meant(act) else meant)
  {
    assert CallOk(Abs(s), c);
  }

  lemma StepCarries(s: State, act: Action, c: Call, meant: int)
    requires Inv(s) && Enabled(s, act) && Carries(s, c, meant)
    ensures Carries(Step(s, act), c, if Answers(act, c) then Meant(act) else meant)
  {
    match act
    case Lock(d) => LockGoesOn(s, d, Step(s, act));
    case Finish(d) =>
      assert CallOk(Abs(s), d);
      FinishCarries(s, d, c, meant);
    case _ => OtherCarries(s, act, c, meant);
  }

  lemma {:induction false} RunCarries(states: seq<State>, acts: seq<Action>, k: nat, c: Call)
    requires IsRun(states, acts) && k < |states|
    ensures Carries(states[k], c, LastMeant(acts, k, c))
  {
    if k > 0 {
      RunCarries(states, acts, k - 1, c);
      RunInv(states, acts, k - 1);
      StepCarries(states[k - 1], acts[k - 1], c, LastMeant(acts, k - 1, c));
    }
  }

  // ---------- Where an error comes from

  /** Only `Begin` makes a call. */
  lemma CallsBegin(s: State, act: Action, c: Call)
    requires Inv(s) && Enabled(s, act) && c in Step(s, act).calls && !Answers(act, c)
    ensures c in s.calls
  {
    if act.Lock? { LockGoesOn(s, act.c, Step(s, act)); }
  }

  lemma {:induction false} LastStays(acts: seq<Action>, k: nat, c: Call, j: nat)
    requires 0 < k <= |acts| && IsLast(acts, k - 1, c, j) && !Answers(acts[k - 1], c)
    ensures IsLast(acts, k, c, j) && LastMeant(acts, k, c) == LastMeant(acts, k - 1, c)
  {
  }

  lemma {:induction false} HasLast(states: seq<State>, acts: seq<Action>, k: nat, c: Call) returns (j: nat)
    requires IsRun(states, acts) && k < |states| && c in states[k].calls
    ensures IsLast(acts, k, c, j) && LastMeant(acts, k, c) == Meant(acts[j])
  {
    if Answers(acts[k - 1], c) {
      j := k - 1;
    } else {
      RunInv(states, acts, k - 1);
      CallsBegin(states[k - 1], acts[k - 1], c);
      j := HasLast(states, acts, k - 1, c);
      LastStays(acts, k, c, j);
    }
  }

  /**
   A call that has returned has failed just if the last the kernel told it was a refusal: of memory,
   which is ENOMEM, or of a vnode, with the error it then gave.
   */
  lemma ErrorIffRefused(states: seq<State>, acts: seq<Action>, k: nat, c: Call) returns (j: nat)
    requires IsRun(states, acts) && k < |states| && c in states[k].calls && states[k].calls[c].pc == Returned
    ensures IsLast(acts, k, c, j)
    ensures states[k].calls[c].error != 0 <==> exists e :: Refuses(acts[j], c, e)
    ensures forall e :: Refuses(acts[j], c, e) ==> states[k].calls[c].error == e
  {
    RunCarries(states, acts, k, c);
    j := HasLast(states, acts, k, c);
    assert Enabled(states[j], acts[j]) && Answers(acts[j], c);
    if states[k].calls[c].error != 0 { assert Refuses(acts[j], c, states[k].calls[c].error); }
  }
}
