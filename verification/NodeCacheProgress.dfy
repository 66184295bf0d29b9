/**
 A call of sysfsnode_find() can succeed: from every reachable state in which an identity is not
 cached, a new call for it can return with a vnode, and the next call for it with the same one.
 */
module NodeCacheProgress {
  import opened Wrappers
  import opened NodeCache
  import opened NodeCacheProtocol
  import opened NodeCacheTable
  import opened NodeCacheTheorems

  // ---------- Going on from a state

  /** The actions can be performed from s, one after another, and lead to t. */
  ghost predicate Path(s: State, acts: seq<Action>, t: State)
    decreases |acts|
  {
    if acts == [] then s == t else Enabled(s, acts[0]) && Path(Step(s, acts[0]), acts[1..], t)
  }

  lemma PathFirst(s: State, act: Action, q: State, acts: seq<Action>, t: State)
    requires Enabled(s, act) && q == Step(s, act) && Path(q, acts, t)
    ensures Path(s, [act] + acts, t)
  {
    assert ([act] + acts)[1..] == acts;
  }

  lemma {:induction false} PathConcat(s: State, a: seq<Action>, q: State, b: seq<Action>, t: State)
    requires Path(s, a, q) && Path(q, b, t)
    ensures Path(s, a + b, t)
    decreases |a|
  {
    if a == [] {
      assert a + b == b;
    } else {
      PathConcat(Step(s, a[0]), a[1..], q, b, t);
      assert (a + b)[1..] == a[1..] + b;
    }
  }

  lemma {:induction false} OneMore(states: seq<State>, acts: seq<Action>, act: Action)
    requires IsRun(states, acts) && Enabled(states[|acts|], act)
    ensures IsRun(states + [Step(states[|acts|], act)], acts + [act])
  {
  }

  /** A path goes on from the last state of a run. */
  lemma {:induction false} RunGoesOn(states: seq<State>, acts: seq<Action>, more: seq<Action>, t: State)
    returns (run: seq<State>)
    requires IsRun(states, acts) && Path(states[|acts|], more, t)
    ensures IsRun(run, acts + more) && states <= run && run[|acts + more|] == t
    decreases |more|
  {
    if more == [] {
      run := states;
      assert acts + more == acts;
    } else {
      var q := Step(states[|acts|], more[0]);
      OneMore(states, acts, more[0]);
      run := RunGoesOn(states + [q], acts + [more[0]], more[1..], t);
      assert acts + [more[0]] + more[1..] == acts + more;
    }
  }

  // ---------- An identity that is not cached

  ghost predicate NotCached(s: State, key: Key) {
    forall a :: a in Members(s.buckets) && a in s.heap ==> s.heap[a].key != key
  }

  /** Where call c stands in s, and with what. */
  ghost predicate Stands(s: State, c: Call, pc: Pc, key: Key, spare: Option<Addr>) {
    Inv(s) && c in s.calls && s.calls[c].pc == pc && s.calls[c].key == key &&
    s.calls[c].newNode == spare && !s.calls[c].inserted
  }

  lemma Begins(s: State, c: Call, key: Key) returns (t: State)
    requires Inv(s) && c !in s.calls && NotCached(s, key)
    ensures Enabled(s, Begin(c, key)) && t == Step(s, Begin(c, key)) && Stands(t, c, Entering, key, None)
    ensures NotCached(t, key) && t.heap == s.heap && t.vnodes == s.vnodes && t.calls.Keys == s.calls.Keys + {c}
  {
    t := Step(s, Begin(c, key));
    StepKeepsInv(s, Begin(c, key));
  }

  /** A miss without a spare: memory is asked for. */
  lemma Misses(s: State, c: Call, key: Key) returns (t: State)
    requires Stands(s, c, Entering, key, None) && NotCached(s, key)
    ensures Enabled(s, Lock(c)) && t == Step(s, Lock(c)) && Stands(t, c, Allocating, key, None)
    ensures NotCached(t, key) && t.heap == s.heap && t.vnodes == s.vnodes && t.calls.Keys == s.calls.Keys
  {
    t := Step(s, Lock(c));
    FindDecides(s, key);
    StepKeepsInv(s, Lock(c));
  }

  lemma Allocates(s: State, c: Call, key: Key, a: Addr, garbage: Node) returns (t: State)
    requires Stands(s, c, Allocating, key, None) && NotCached(s, key) && a !in s.heap
    ensures Enabled(s, Malloc(c, Some(a), garbage)) && t == Step(s, Malloc(c, Some(a), garbage))
    ensures Stands(t, c, Entering, key, Some(a)) && NotCached(t, key) && t.vnodes == s.vnodes
    ensures t.calls.Keys == s.calls.Keys
  {
    t := Step(s, Malloc(c, Some(a), garbage));
    StepKeepsInv(s, Malloc(c, Some(a), garbage));
    assert CallOk(Abs(t), c);
  }

  /** A miss with a spare: it becomes the node, and the vnode is asked for. */
  lemma Inserts(s: State, c: Call, key: Key, a: Addr) returns (t: State)
    requires Stands(s, c, Entering, key, Some(a)) && NotCached(s, key)
    ensures Enabled(s, Lock(c)) && t == Step(s, Lock(c)) && Inv(t) && t.vnodes == s.vnodes
    ensures t.calls.Keys == s.calls.Keys
    ensures c in t.calls && t.calls[c].pc == Creating && t.calls[c].target == Some(a) && t.calls[c].key == key
  {
    t := Step(s, Lock(c));
    FindDecides(s, key);
    StepKeepsInv(s, Lock(c));
  }

  lemma Creates(s: State, c: Call, key: Key, a: Addr, v: Vnode) returns (t: State)
    requires Inv(s) && c in s.calls && s.calls[c].pc == Creating && s.calls[c].target == Some(a)
    requires s.calls[c].key == key && v !in s.vnodes
    ensures Enabled(s, CreateVnode(c, Some(v), 0)) && t == Step(s, CreateVnode(c, Some(v), 0)) && Inv(t)
    ensures t.calls.Keys == s.calls.Keys
    ensures c in t.calls && t.calls[c].pc == Created && t.calls[c].target == Some(a)
    ensures t.calls[c].key == key && t.calls[c].vnode == Some(v) && t.calls[c].error == 0
  {
    t := Step(s, CreateVnode(c, Some(v), 0));
    StepKeepsInv(s, CreateVnode(c, Some(v), 0));
  }

  lemma Finishes(s: State, c: Call, key: Key, a: Addr, v: Vnode) returns (t: State)
    requires Inv(s) && c in s.calls && s.calls[c].pc == Created && s.calls[c].target == Some(a)
    requires s.calls[c].key == key && s.calls[c].vnode == Some(v) && s.calls[c].error == 0
    ensures Enabled(s, Finish(c)) && t == Step(s, Finish(c)) && Leaving(t, c, key, v)
    ensures t.calls.Keys == s.calls.Keys
  {
    t := Step(s, Finish(c));
    assert CallOk(Abs(s), c);
    StepKeepsInv(s, Finish(c));
  }

  /** The call is on its way out with the vnode. */
  ghost predicate Leaving(s: State, c: Call, key: Key, v: Vnode) {
    Inv(s) && c in s.calls && s.calls[c].pc == Exiting && s.calls[c].key == key &&
    s.calls[c].vnode == Some(v) && s.calls[c].error == 0
  }

  /** The call has returned the vnode. */
  ghost predicate Has(s: State, c: Call, key: Key, v: Vnode) {
    Inv(s) && c in s.calls && s.calls[c].pc == Returned && s.calls[c].key == key &&
    s.calls[c].vnode == Some(v) && s.calls[c].error == 0
  }

  lemma Leaves(s: State, c: Call, key: Key, v: Vnode) returns (t: State)
    requires Leaving(s, c, key, v)
    ensures Enabled(s, Exit(c)) && t == Step(s, Exit(c)) && Has(t, c, key, v) && t.calls.Keys == s.calls.Keys
  {
    t := Step(s, Exit(c));
    StepKeepsInv(s, Exit(c));
  }

  /** From memory to the spare. */
  lemma GetsSpare(s: State, c: Call, key: Key, a: Addr, garbage: Node) returns (acts: seq<Action>, t: State)
    requires Inv(s) && c !in s.calls && NotCached(s, key) && a !in s.heap
    ensures Path(s, acts, t) && Stands(t, c, Entering, key, Some(a)) && NotCached(t, key) && t.vnodes == s.vnodes
    ensures t.calls.Keys == s.calls.Keys + {c}
  {
    var s1 := Begins(s, c, key);
    var s2 := Misses(s1, c, key);
    t := Allocates(s2, c, key, a, garbage);
    acts := [Begin(c, key)] + ([Lock(c)] + ([Malloc(c, Some(a), garbage)] + []));
    PathFirst(s2, Malloc(c, Some(a), garbage), t, [], t);
    PathFirst(s1, Lock(c), s2, [Malloc(c, Some(a), garbage)] + [], t);
    PathFirst(s, Begin(c, key), s1, [Lock(c)] + ([Malloc(c, Some(a), garbage)] + []), t);
  }

  /** From the spare to the vnode. */
  lemma GetsVnode(s: State, c: Call, key: Key, a: Addr, v: Vnode) returns (acts: seq<Action>, t: State)
    requires Stands(s, c, Entering, key, Some(a)) && NotCached(s, key) && v !in s.vnodes
    ensures Path(s, acts, t) && Has(t, c, key, v) && t.calls.Keys == s.calls.Keys
  {
    var s1 := Inserts(s, c, key, a);
    var s2 := Creates(s1, c, key, a, v);
    var s3 := Finishes(s2, c, key, a, v);
    t := Leaves(s3, c, key, v);
    var last := [Finish(c)] + ([Exit(c)] + []);
    acts := [Lock(c)] + ([CreateVnode(c, Some(v), 0)] + last);
    PathFirst(s3, Exit(c), t, [], t);
    PathFirst(s2, Finish(c), s3, [Exit(c)] + [], t);
    PathFirst(s1, CreateVnode(c, Some(v), 0), s2, last, t);
    PathFirst(s, Lock(c), s1, [CreateVnode(c, Some(v), 0)] + last, t);
  }

  // ---------- An identity that a caller holds

  lemma BeginsAgain(s: State, c: Call, d: Call, key: Key, v: Vnode) returns (t: State)
    requires Has(s, c, key, v) && d !in s.calls
    ensures Enabled(s, Begin(d, key)) && t == Step(s, Begin(d, key)) && Has(t, c, key, v)
    ensures Stands(t, d, Entering, key, None)
  {
    t := Step(s, Begin(d, key));
    StepKeepsInv(s, Begin(d, key));
  }

  /** What a caller holds is what a search finds. */
  lemma HeldIsFound(s: State, c: Call, key: Key, v: Vnode)
    requires Has(s, c, key, v)
    ensures s.calls[c].target.Some? && s.calls[c].target.value in s.heap
    ensures FindIn(s.buckets[BucketOf(key)], s.heap, key) == s.calls[c].target
    ensures !s.heap[s.calls[c].target.value].attaching && s.heap[s.calls[c].target.value].vnode == Some(v)
  {
    assert CallOk(Abs(s), c);
    FindDecides(s, key);
    var a := s.calls[c].target.value;
    assert InTable(Abs(s), a) && NodeOk(Abs(s), a);
    var found := FindIn(s.buckets[BucketOf(key)], s.heap, key);
    assert found.Some? && InTable(Abs(s), found.value);
  }

  /** A hit: the node's vnode is asked for. */
  lemma Hits(s: State, c: Call, d: Call, key: Key, v: Vnode) returns (t: State)
    requires Has(s, c, key, v) && c != d && Stands(s, d, Entering, key, None)
    ensures Enabled(s, Lock(d)) && t == Step(s, Lock(d)) && Has(t, c, key, v)
    ensures d in t.calls && t.calls[d].pc == Getting && t.calls[d].key == key && t.calls[d].vnode == Some(v)
  {
    t := Step(s, Lock(d));
    HeldIsFound(s, c, key, v);
    FindDecides(s, key);
    StepKeepsInv(s, Lock(d));
  }

  lemma Gets(s: State, c: Call, d: Call, key: Key, v: Vnode) returns (t: State)
    requires Has(s, c, key, v) && c != d
    requires d in s.calls && s.calls[d].pc == Getting && s.calls[d].key == key && s.calls[d].vnode == Some(v)
    ensures Enabled(s, GetVnode(d, true)) && t == Step(s, GetVnode(d, true))
    ensures Has(t, c, key, v) && Leaving(t, d, key, v)
  {
    assert CallOk(Abs(s), c) && CallOk(Abs(s), d);
    t := Step(s, GetVnode(d, true));
    StepKeepsInv(s, GetVnode(d, true));
  }

  lemma LeavesToo(s: State, c: Call, d: Call, key: Key, v: Vnode) returns (t: State)
    requires Has(s, c, key, v) && c != d && Leaving(s, d, key, v)
    ensures Enabled(s, Exit(d)) && t == Step(s, Exit(d)) && Has(t, c, key, v) && Has(t, d, key, v)
  {
    t := Leaves(s, d, key, v);
  }

  /** While one caller holds the vnode of an identity, another call for it can return the same vnode. */
  lemma SharesVnode(s: State, c: Call, d: Call, key: Key, v: Vnode) returns (acts: seq<Action>, t: State)
    requires Has(s, c, key, v) && d !in s.calls
    ensures Path(s, acts, t) && Has(t, c, key, v) && Has(t, d, key, v)
  {
    var s1 := BeginsAgain(s, c, d, key, v);
    var s2 := Hits(s1, c, d, key, v);
    var s3 := Gets(s2, c, d, key, v);
    t := LeavesToo(s3, c, d, key, v);
    var last := [GetVnode(d, true)] + ([Exit(d)] + []);
    acts := [Begin(d, key)] + ([Lock(d)] + last);
    PathFirst(s3, Exit(d), t, [], t);
    PathFirst(s2, GetVnode(d, true), s3, [Exit(d)] + [], t);
    PathFirst(s1, Lock(d), s2, last, t);
    PathFirst(s, Begin(d, key), s1, [Lock(d)] + last, t);
  }

  // ---------- Over runs

  /**
   Every run that ends with an identity not cached can go on so that a new call for it returns a new
   vnode without an error, and a second call then the same vnode.
   */
  lemma CallsCanSucceed(states: seq<State>, acts: seq<Action>, key: Key, c: Call, d: Call, a: Addr, v: Vnode,
                        garbage: Node)
    returns (run: seq<State>, more: seq<Action>)
    requires IsRun(states, acts) && NotCached(states[|acts|], key) && c != d
    requires c !in states[|acts|].calls && d !in states[|acts|].calls
    requires a !in states[|acts|].heap && v !in states[|acts|].vnodes
    ensures IsRun(run, acts + more) && states <= run
    ensures Has(run[|acts + more|], c, key, v) && Has(run[|acts + more|], d, key, v)
  {
    var s := states[|acts|];
    RunInv(states, acts, |acts|);
    var first, s1 := GetsSpare(s, c, key, a, garbage);
    var second, s2 := GetsVnode(s1, c, key, a, v);
    var third, t := SharesVnode(s2, c, d, key, v);
    PathConcat(s, first, s1, second, s2);
    PathConcat(s, first + second, s2, third, t);
    more := first + second + third;
    run := RunGoesOn(states, acts, more, t);
  }

  /** At the start nothing is cached, so that is so for every identity from every initial state. */
  lemma FirstCallsCanSucceed(s: State, key: Key, c: Call, d: Call, a: Addr, v: Vnode, garbage: Node)
    requires Initial(s) && c != d
    ensures exists run, acts ::
              IsRun(run, acts) && run[0] == s && Has(run[|acts|], c, key, v) && Has(run[|acts|], d, key, v)
  {
    assert NotCached(s, key);
    var run, more := CallsCanSucceed([s], [], key, c, d, a, v, garbage);
    assert [] + more == more && run[0] == s;
  }
}
