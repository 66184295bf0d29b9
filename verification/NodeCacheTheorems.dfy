/**
 What holds in every state of every run of the node cache.
 */
module NodeCacheTheorems {
  import opened Wrappers
  import opened NodeCache
  import opened NodeCacheProtocol
  import opened NodeCacheSteps
  import opened NodeCacheTable

  ghost function Abs(s: State): View {
    View(Members(s.buckets), s.heap, s.calls, s.vnodes)
  }

  ghost predicate Inv(s: State) {
    !s.faulted && TableOk(s) && ProtocolOk(Abs(s))
  }

  // ---------- Every step keeps the invariant

  lemma LoopTopInv(s: State, c: Call)
    requires Inv(s) && c in s.calls && s.calls[c].pc in {Entering, Woken, GetFailed}
    ensures Inv(LoopTop(s, c))
  {
    var r := s.calls[c];
    var s1 := SetCall(s, c, r.(error := 0));
    FindDecides(s, r.key);
    match FindIn(s.buckets[BucketOf(r.key)], s.heap, r.key)
    case Some(a) => ProceedInv(s, s1, LoopTop(s, c), c, a);
    case None =>
      if r.newNode.None? {
        assert CallOk(Abs(s), c);
        OneCall(Abs(s), Abs(LoopTop(s, c)), c);
      } else {
        InsertInv(s, s1, LoopTop(s, c), c, r.newNode.value);
      }
  }

  /** The search found node a: sleep on its attacher, or try its vnode. */
  lemma ProceedInv(s: State, s1: State, s': State, c: Call, a: Addr)
    requires Inv(s) && c in s.calls && s.calls[c].pc in {Entering, Woken, GetFailed}
    requires a in Members(s.buckets) && a in s.heap && s.heap[a].key == s.calls[c].key
    requires s1 == SetCall(s, c, s.calls[c].(error := 0)) && s' == Proceed(s1, c, a)
    ensures Inv(s')
  {
    if s.heap[a].attaching {
      SleepInv(s, s', c, a);
    } else {
      assert CallOk(Abs(s), c) && NodeOk(Abs(s), a) && InTable(Abs(s), a);
      assert Linked(Abs(s), s.heap[a].vnode.value, a);
      OneCall(Abs(s), Abs(s'), c);
    }
  }

  lemma SleepInv(s: State, s': State, c: Call, a: Addr)
    requires Inv(s) && c in s.calls && s.calls[c].pc in {Entering, Woken, GetFailed}
    requires a in Members(s.buckets) && a in s.heap && s.heap[a].key == s.calls[c].key && s.heap[a].attaching
    requires s'
      == SetCall(SetNode(s, a, s.heap[a].(waiting := true)), c,
                 s.calls[c].(error := 0, target := Some(a), pc := Sleeping))
    ensures Inv(s')
  {
    assert CallOk(Abs(s), c) && NodeOk(Abs(s), a) && InTable(Abs(s), a);
    SetNodeKeepsTable(s, a, s.heap[a].(waiting := true));
    SleepStepOk(Abs(s), Abs(s'), c, a);
  }

  lemma InsertInv(s: State, s1: State, s': State, c: Call, a: Addr)
    requires Inv(s) && c in s.calls && s.calls[c].pc in {Entering, Woken, GetFailed} && s.calls[c].newNode == Some(a)
    requires forall x :: x in Members(s.buckets) && x in s.heap ==> s.heap[x].key != s.calls[c].key
    requires s1 == SetCall(s, c, s.calls[c].(error := 0))
    requires s' == Proceed(Insert(s1, c, a), c, a)
    ensures Inv(s')
  {
    assert CallOk(Abs(s), c);
    var s2 := Insert(s1, c, a);
    InsertKeepsTable(s1, c, a);
    SetNodeKeepsTable(s2, a, s2.heap[a].(attaching := true));
    InsertOk(Abs(s), Abs(s'), c, a);
  }

  lemma RetryInv(s: State, c: Call)
    requires Inv(s) && c in s.calls && s.calls[c].pc == GetFailed
    ensures Inv(RetryAfterGet(s, c))
  {
    var r := s.calls[c];
    assert CallOk(Abs(s), c);
    if r.newNode.Some? {
      var s1 := SetCall(FreeSpare(s, r.newNode.value), c, r.(newNode := None, target := None));
      SpareKeepsTable(s, s1, r.newNode.value);
      DropSpareOk(Abs(s), Abs(s1), c);
      LoopTopInv(s1, c);
    } else {
      var s1 := SetCall(s, c, r.(target := None));
      OneCall(Abs(s), Abs(s1), c);
      LoopTopInv(s1, c);
    }
  }

  lemma FinishInv(s: State, c: Call)
    requires Inv(s) && c in s.calls && s.calls[c].pc == Created && s.calls[c].target.Some?
    ensures Inv(FinishCreate(s, c))
  {
    var a := s.calls[c].target.value;
    assert CallOk(Abs(s), c) && Attaches(Abs(s), c, a);
    var woken := if s.heap[a].waiting then WakeAll(s, a) else s;
    forall d | d in s.calls && s.calls[d].pc == Sleeping && s.calls[d].target == Some(a) ensures s.heap[a].waiting {
      assert CallOk(Abs(s), d);
    }
    WakeOk(Abs(s), Abs(woken), a);
    assert woken.calls[c] == s.calls[c] && Attaches(Abs(woken), c, a);
    FinishWokenInv(s, woken, FinishCreate(s, c), c, a);
  }

  lemma FinishWokenInv(s: State, woken: State, s': State, c: Call, a: Addr)
    requires Inv(woken) && Attaches(Abs(woken), c, a) && woken.calls[c].pc == Created && a in woken.heap
    requires forall d :: d in woken.calls && woken.calls[d].pc == Sleeping ==> woken.calls[d].target != Some(a)
    requires s'
      == var s1 := SetNode(woken, a, woken.heap[a].(attaching := false, waiting := false));
         var r := woken.calls[c];
         if r.error != 0 then
           SetCall(FreeNode(s1, a), c,
                   r.(pc := Exiting, target := None, newNode := if r.newNode == Some(a) then None else r.newNode))
         else
           SetCall(SetNode(s1, a, s1.heap[a].(vnode := r.vnode)), c, r.(pc := Exiting))
    ensures Inv(s')
  {
    assert CallOk(Abs(woken), c);
    var n := woken.heap[a].(attaching := false, waiting := false);
    var s1 := SetNode(woken, a, n);
    SetNodeKeepsTable(woken, a, n);
    if woken.calls[c].error != 0 {
      FreeNodeKeepsTable(s1, a);
      assert s'.heap == woken.heap - {a};
      AbandonOk(Abs(woken), Abs(s'), c, a);
    } else {
      SetNodeKeepsTable(s1, a, n.(vnode := woken.calls[c].vnode));
      LinkVnodeOk(Abs(woken), Abs(s'), c, a);
    }
  }

  lemma LeaveInv(s: State, c: Call)
    requires Inv(s) && c in s.calls && s.calls[c].pc == Exiting
    ensures Inv(Leave(s, c))
  {
    var r := s.calls[c];
    var s' := Leave(s, c);
    assert CallOk(Abs(s), c);
    if r.newNode.Some? && r.newNode != r.target && !r.inserted {
      SpareKeepsTable(s, s', r.newNode.value);
      DropSpareOk(Abs(s), Abs(s'), c);
    } else {
      OneCall(Abs(s), Abs(s'), c);
    }
  }

  lemma ReclaimInv(s: State, v: Vnode, s': State)
    requires Inv(s) && v in s.vnodes && s.vnodes[v].phase == Dying
    requires s' == FreeNode(s, s.vnodes[v].fsnode).(vnodes := s.vnodes[v := s.vnodes[v].(phase := Dead)])
    ensures Inv(s')
  {
    DyingIsLinked(Abs(s), v);
    FreeNodeKeepsTable(s, s.vnodes[v].fsnode);
    ReclaimOk(Abs(s), Abs(s'), v);
  }

  lemma MallocInv(s: State, s': State, c: Call, a: Addr, garbage: Node)
    requires Inv(s) && c in s.calls && s.calls[c].pc == Allocating && a !in s.heap
    requires s' == SetCall(s.(heap := s.heap[a := garbage]), c, s.calls[c].(pc := Entering, newNode := Some(a)))
    ensures Inv(s')
  {
    assert NodeOk(Abs(s), a);
    SpareKeepsTable(s, s', a);
    MallocOk(Abs(s), Abs(s'), c, a, garbage);
  }

  lemma VnodeStepKeepsInv(s: State, act: Action)
    requires Inv(s) && Enabled(s, act) && (act.GetVnode? || act.CreateVnode?)
    ensures Inv(Step(s, act))
  {
    var s' := Step(s, act);
    assert CallOk(Abs(s), act.c);
    match act
    case GetVnode(c, ok) =>
      if ok { GetVnodeOk(Abs(s), Abs(s'), c, s.calls[c].vnode.value); } else { OneCall(Abs(s), Abs(s'), c); }
    case CreateVnode(c, v, _) =>
      if v.Some? { CreateVnodeOk(Abs(s), Abs(s'), c, v.value); } else { OneCall(Abs(s), Abs(s'), c); }
  }

  lemma UnlockedStepKeepsInv(s: State, act: Action)
    requires Inv(s) && Enabled(s, act) && (act.Begin? || act.Malloc? || act.SpuriousWake?)
    ensures Inv(Step(s, act))
  {
    var s' := Step(s, act);
    assert CallOk(Abs(s), act.c);
    if act.Malloc? && act.a.Some? {
      MallocInv(s, s', act.c, act.a.value, act.garbage);
    } else {
      OneCall(Abs(s), Abs(s'), act.c);
    }
  }

  lemma PutInv(s: State, c: Call)
    requires Inv(s) && Enabled(s, Put(c))
    ensures Inv(Step(s, Put(c)))
  {
    var s' := Step(s, Put(c));
    assert CallOk(Abs(s), c);
    if s.calls[c].error == 0 {
      PutOk(Abs(s), Abs(s'), c, s.calls[c].vnode.value);
    } else {
      OneCall(Abs(s), Abs(s'), c);
    }
  }

  lemma StepKeepsInv(s: State, act: Action)
    requires Inv(s) && Enabled(s, act)
    ensures Inv(Step(s, act))
  {
    match act
    case Lock(c) => if s.calls[c].pc == GetFailed { RetryInv(s, c); } else { LoopTopInv(s, c); }
    case Finish(c) => FinishInv(s, c);
    case Exit(c) => LeaveInv(s, c);
    case Put(c) => PutInv(s, c);
    case ReclaimStart(v) => ReclaimStartOk(Abs(s), Abs(Step(s, act)), v);
    case Reclaim(v) => ReclaimInv(s, v, Step(s, act));
    case GetVnode(_, _) => VnodeStepKeepsInv(s, act);
    case CreateVnode(_, _, _) => VnodeStepKeepsInv(s, act);
    case _ => UnlockedStepKeepsInv(s, act);
  }

  lemma InitialInv(s: State)
    requires Initial(s)
    ensures Inv(s)
  {
    TotalLenEmpty(BUCKETS);
    assert Members(s.buckets) == {};
  }

  /** Every state of every run satisfies the invariant. */
  lemma {:induction false} RunInv(states: seq<State>, acts: seq<Action>, k: nat)
    requires IsRun(states, acts) && k < |states|
    ensures Inv(states[k])
  {
    if k == 0 {
      InitialInv(states[0]);
    } else {
      RunInv(states, acts, k - 1);
      StepKeepsInv(states[k - 1], acts[k - 1]);
    }
  }

  // ---------- What the invariant means

  /** The table never holds two nodes of one identity, and every node is where its identity hashes to. */
  lemma IdentityIsUnique(states: seq<State>, acts: seq<Action>, k: nat)
    requires IsRun(states, acts) && k < |states|
    ensures |states[k].buckets| == BUCKETS
    ensures forall b, i {:trigger states[k].buckets[b][i]} :: 0 <= b < BUCKETS && 0 <= i < |states[k].buckets[b]| ==>
              states[k].buckets[b][i] in states[k].heap &&
              BucketOf(states[k].heap[states[k].buckets[b][i]].key) == b
    ensures forall b, i, b', i' {:trigger states[k].buckets[b][i], states[k].buckets[b'][i']} ::
              0 <= b < BUCKETS && 0 <= i < |states[k].buckets[b]| &&
              0 <= b' < BUCKETS && 0 <= i' < |states[k].buckets[b']| &&
              states[k].heap[states[k].buckets[b][i]].key == states[k].heap[states[k].buckets[b'][i']].key
              ==> b == b' && i == i'
  {
    RunInv(states, acts, k);
    var s := states[k];
    forall b, i | 0 <= b < BUCKETS && 0 <= i < |s.buckets[b]|
      ensures s.buckets[b][i] in s.heap && BucketOf(s.heap[s.buckets[b][i]].key) == b
      ensures InTable(Abs(s), s.buckets[b][i])
    {
      assert s.buckets[b][i] in s.buckets[b] && InRightBucket(s.heap, b, s.buckets[b][i]);
    }
  }

  /** What a caller holds: the node and vnode of the identity it asked for, live, linked and in the table. */
  ghost predicate HoldsResult(s: State, c: Call, a: Addr, v: Vnode) {
    c in s.calls && s.calls[c].pc == Returned && s.calls[c].error == 0 &&
    s.calls[c].target == Some(a) && s.calls[c].vnode == Some(v)
  }

  lemma ResultIsRight(states: seq<State>, acts: seq<Action>, k: nat, c: Call)
    requires IsRun(states, acts) && k < |states|
    requires c in states[k].calls && states[k].calls[c].pc == Returned && states[k].calls[c].error == 0
    ensures var s := states[k];
            exists a, v :: HoldsResult(s, c, a, v) &&
              a in s.heap && s.heap[a].key == s.calls[c].key && a in Members(s.buckets) &&
              s.heap[a].vnode == Some(v) && v in s.vnodes && s.vnodes[v].phase == Live &&
              s.vnodes[v].fsnode == a && c in s.vnodes[v].refs
  {
    RunInv(states, acts, k);
    var s := states[k];
    assert CallOk(Abs(s), c);
    var v := s.calls[c].vnode.value;
    assert VnodeOk(Abs(s), v) && Holds(Abs(s), c, v);
    assert HoldsResult(s, c, s.calls[c].target.value, v);
  }

  /** Two callers that hold results for one identity at one moment hold the same node and the same vnode. */
  lemma OneVnodePerIdentity(states: seq<State>, acts: seq<Action>, k: nat, c: Call, a: Addr, v: Vnode, c': Call,
                            a': Addr, v': Vnode)
    requires IsRun(states, acts) && k < |states|
    requires HoldsResult(states[k], c, a, v) && HoldsResult(states[k], c', a', v')
    requires states[k].calls[c].key == states[k].calls[c'].key
    ensures a == a' && v == v'
  {
    RunInv(states, acts, k);
    assert CallOk(Abs(states[k]), c) && CallOk(Abs(states[k]), c');
  }

  /**
   With the mutex free, a table node has a vnode or is being attached by exactly one call, never both,
   never neither.
   */
  lemma AttachedOrAttaching(states: seq<State>, acts: seq<Action>, k: nat, a: Addr)
    requires IsRun(states, acts) && k < |states| && a in Members(states[k].buckets)
    ensures a in states[k].heap
    ensures states[k].heap[a].vnode.Some? <==> !exists c :: Attaches(Abs(states[k]), c, a)
    ensures forall c, d :: Attaches(Abs(states[k]), c, a) && Attaches(Abs(states[k]), d, a) ==> c == d
    ensures states[k].heap[a].attaching <==> states[k].heap[a].vnode.None?
  {
    RunInv(states, acts, k);
    var s := Abs(states[k]);
    assert NodeOk(s, a);
    forall c | Attaches(s, c, a) ensures s.heap[a].attaching { assert CallOk(s, c); }
  }

  /** The sleeper c still sleeps on node a, and the next critical section of call d wakes it. */
  ghost predicate WakesNext(s: State, c: Call, d: Call, a: Addr) {
    c in s.calls && s.calls[c].pc == Sleeping && s.calls[c].target == Some(a) &&
    Enabled(s, Finish(d)) && Step(s, Finish(d)).calls[c] == s.calls[c].(pc := Woken)
  }

  /**
   A sleeper sleeps on a table node with its waiting flag set and one call d attaching it. If d is
   back from creating the vnode, its next critical section wakes the sleeper; if it is not, that is
   so after whatever outcome it comes back with. No wakeup is lost, and not all calls sleep.
   */
  lemma WakeupIsNotLost(states: seq<State>, acts: seq<Action>, k: nat, c: Call) returns (d: Call)
    requires IsRun(states, acts) && k < |states|
    requires c in states[k].calls && states[k].calls[c].pc == Sleeping
    ensures var s := states[k];
            && s.calls[c].target.Some? && s.calls[c].target.value in s.heap
            && s.heap[s.calls[c].target.value].attaching && s.heap[s.calls[c].target.value].waiting
            && Attaches(Abs(s), d, s.calls[c].target.value)
            && (s.calls[d].pc == Created ==> WakesNext(s, c, d, s.calls[c].target.value))
            && (s.calls[d].pc == Creating ==> Enabled(s, CreateVnode(d, None, ENOMEM)))
            && (forall v, e {:trigger CreateVnode(d, v, e)} :: Enabled(s, CreateVnode(d, v, e)) ==>
                  WakesNext(Step(s, CreateVnode(d, v, e)), c, d, s.calls[c].target.value))
  {
    RunInv(states, acts, k);
    var s := states[k];
    assert CallOk(Abs(s), c) && NodeOk(Abs(s), s.calls[c].target.value);
    d :| Attaches(Abs(s), d, s.calls[c].target.value);
    assert CallOk(Abs(s), d);
    forall v, e | Enabled(s, CreateVnode(d, v, e))
      ensures WakesNext(Step(s, CreateVnode(d, v, e)), c, d, s.calls[c].target.value)
    {
      CreatedWakes(s, c, d, s.calls[c].target.value, CreateVnode(d, v, e));
    }
    if s.calls[d].pc == Created { FinishWakes(s, c, d, s.calls[c].target.value); }
  }

  /** The critical section after the create callback wakes whoever sleeps on the node. */
  lemma FinishWakes(s: State, c: Call, d: Call, a: Addr)
    requires c in s.calls && s.calls[c].pc == Sleeping && s.calls[c].target == Some(a)
    requires d in s.calls && s.calls[d].pc == Created && s.calls[d].target == Some(a) && a in s.heap
    requires s.heap[a].waiting && Enabled(s, Finish(d))
    ensures WakesNext(s, c, d, a)
  {
  }

  lemma CreatedWakes(s: State, c: Call, d: Call, a: Addr, act: Action)
    requires Inv(s) && c in s.calls && s.calls[c].pc == Sleeping && s.calls[c].target == Some(a)
    requires d in s.calls && s.calls[d].target == Some(a) && a in s.heap && s.heap[a].waiting
    requires act.CreateVnode? && act.c == d && Enabled(s, act)
    ensures WakesNext(Step(s, act), c, d, a)
  {
    var s' := Step(s, act);
    assert s'.calls[c] == s.calls[c] && s'.heap == s.heap;
    FinishWakes(s', c, d, a);
  }

  /**
   Allocation is conserved and memory is used safely in every state of every run: an allocated node is
   in the table or the spare of exactly one call, never both; a call that has returned keeps no spare;
   the live counter is the size of the table; and nothing freed was ever touched.
   */
  lemma NodesAreConserved(states: seq<State>, acts: seq<Action>, k: nat)
    requires IsRun(states, acts) && k < |states|
    ensures !states[k].faulted
    ensures states[k].liveNodes == |Members(states[k].buckets)|
    ensures forall a :: a in states[k].heap <==>
              a in Members(states[k].buckets) || exists c :: OwnsSpare(Abs(states[k]), c, a)
    ensures forall c, a :: OwnsSpare(Abs(states[k]), c, a) ==>
              a !in Members(states[k].buckets) && states[k].calls[c].pc != Returned
    ensures forall c, d, a :: OwnsSpare(Abs(states[k]), c, a) && OwnsSpare(Abs(states[k]), d, a) ==> c == d
  {
    RunInv(states, acts, k);
    var s := states[k];
    forall b, b', a | 0 <= b < BUCKETS && 0 <= b' < BUCKETS && a in s.buckets[b] && a in s.buckets[b'] ensures b == b' {
      assert InRightBucket(s.heap, b, a) && InRightBucket(s.heap, b', a);
    }
    LiveIsTableSize(s.buckets);
    forall c, a | OwnsSpare(Abs(s), c, a)
      ensures a !in Members(s.buckets) && s.calls[c].pc != Returned && a in s.heap
    {
      assert CallOk(Abs(s), c);
    }
    forall a ensures a in s.heap <==> a in Members(s.buckets) || exists c :: OwnsSpare(Abs(s), c, a) {
      assert KeptNode(Abs(s), a) && NodeOk(Abs(s), a);
    }
  }
}
