/**
 The node cache of kext/sysfs_node.c as a transition system.

 Any number of activations of sysfsnode_find() ("calls") run at once. The hash
 mutex makes each critical section atomic, so one step of the system is one
 critical section, or one stretch of code that runs with the mutex released.
 The kernel around the cache (OSMalloc, vnode_create, vnode_getwithvid, msleep,
 reclaim) is nondeterministic: its choices are the arguments of an `Action`.
 */
module NodeCache {
  import opened Wrappers

  /** The address of an sfsnode_t. */
  datatype Addr = Addr(id: nat)

  /** One activation of sysfsnode_find(). */
  datatype Call = Call(id: nat)

  /** One incarnation of a vnode: its address together with its vnode id. */
  datatype Vnode = Vnode(id: nat)

  datatype NodeId = NodeId(regid: bv64, objectid: bv64, baseId: bv16)

  datatype Key = Key(mount: bv32, id: NodeId)

  /** The fields of an sfsnode_t that the cache works with. */
  datatype Node = Node(key: Key, vnode: Option<Vnode>, attaching: bool, waiting: bool)

  /** VFS's view of a vnode: usable, being reclaimed, or gone. */
  datatype Phase = Live | Dying | Dead

  /** `refs` holds the calls that own an iocount on the vnode. */
  datatype VnodeRec = VnodeRec(fsnode: Addr, phase: Phase, refs: set<Call>)

  /** Where a call stands: always at a point where it does not hold the mutex. */
  datatype Pc =
    | Entering        // before the first lock, or before the relock after a successful allocation
    | Allocating      // inside OSMalloc
    | Sleeping        // inside msleep on `target`
    | Woken           // made runnable, msleep has yet to retake the mutex
    | Getting         // inside vnode_getwithvid
    | GetFailed       // vnode_getwithvid failed, before the relock
    | Creating        // inside the caller's create_vnode_func
    | Created         // create_vnode_func returned, before the relock
    | Exiting         // out of the loop, mutex released, the spare not yet dealt with
    | Returned        // the result has been handed to the caller

  /** The local variables of one activation. */
  datatype CallRec = CallRec(
    pc: Pc, key: Key,
    newNode: Option<Addr>, inserted: bool,
    target: Option<Addr>, vnode: Option<Vnode>, error: int)

  /**
   `heap` holds the allocated sfsnode_t's, in the table or not. `faulted` records
   that freed memory was read, unlinked or freed again.
   */
  datatype State = State(
    buckets: seq<seq<Addr>>, heap: map<Addr, Node>, liveNodes: int,
    calls: map<Call, CallRec>, vnodes: map<Vnode, VnodeRec>, faulted: bool)

  const BUCKETS := 64
  const ENOMEM := 12

  /** The low 32 bits of a 64-bit value, as the cast to int keeps them. */
  function Low32(x: bv64): bv32 {
    (x & 0xFFFF_FFFF) as bv32
  }

  function HashOf(key: Key): bv32 {
    (key.mount << 16) ^ Low32(key.id.regid) ^ Low32(key.id.objectid) ^ (key.id.baseId as bv32)
  }

  /** Masking with a power of two minus one is the remainder by that power of two. */
  function BucketOf(key: Key): nat
    ensures BucketOf(key) < BUCKETS
  {
    (HashOf(key) as nat) % BUCKETS
  }

  /** The LIST_FOREACH walk of one bucket: the first node with the wanted key. */
  function FindIn(bucket: seq<Addr>, heap: map<Addr, Node>, key: Key): Option<Addr> {
    if bucket == [] then None
    else if bucket[0] in heap && heap[bucket[0]].key == key then Some(bucket[0])
    else FindIn(bucket[1..], heap, key)
  }

  function Removed(bucket: seq<Addr>, a: Addr): seq<Addr> {
    if bucket == [] then []
    else if bucket[0] == a then bucket[1..]
    else [bucket[0]] + Removed(bucket[1..], a)
  }

  // ---------- Memory operations: each faults on an address that is not allocated

  function Fault(s: State, ok: bool): State {
    s.(faulted := s.faulted || !ok)
  }

  function FreeSpare(s: State, a: Addr): State {
    Fault(s, a in s.heap).(heap := s.heap - {a})
  }

  /** sysfsnode_free_node(): unlink, count down, free. */
  function FreeNode(s: State, a: Addr): State
    requires |s.buckets| == BUCKETS
  {
    if a !in s.heap then Fault(s, false)
    else
      var b := BucketOf(s.heap[a].key);
      Fault(s, a in s.buckets[b]).(
        buckets := s.buckets[b := Removed(s.buckets[b], a)],
        liveNodes := s.liveNodes - 1,
        heap := s.heap - {a})
  }

  function SetCall(s: State, c: Call, r: CallRec): State {
    s.(calls := s.calls[c := r])
  }

  function SetNode(s: State, a: Addr, n: Node): State {
    Fault(s, a in s.heap).(heap := s.heap[a := n])
  }

  /** wakeup(): every call asleep on the channel becomes runnable. */
  function WakeAll(s: State, chan: Addr): State {
    s.(calls := map c | c in s.calls ::
         if s.calls[c].pc == Sleeping && s.calls[c].target == Some(chan)
         then s.calls[c].(pc := Woken) else s.calls[c])
  }

  // ---------- The critical sections of sysfsnode_find()

  /** Lines 187-203: initialize the spare and put it at the head of its bucket. */
  function Insert(s: State, c: Call, a: Addr): State
    requires |s.buckets| == BUCKETS && c in s.calls
  {
    var key := s.calls[c].key;
    var b := BucketOf(key);
    var s1 := SetNode(s, a, Node(key, None, false, false));
    SetCall(s1.(buckets := s1.buckets[b := [a] + s1.buckets[b]], liveNodes := s1.liveNodes + 1),
            c, s.calls[c].(inserted := true))
  }

  /** Lines 219-290: a node is at hand; sleep, try its vnode, or claim the attach. */
  function Proceed(s: State, c: Call, a: Addr): State
    requires c in s.calls
  {
    var r := s.calls[c].(target := Some(a));
    if a !in s.heap then Fault(s, false)
    else if s.heap[a].attaching then
      SetCall(SetNode(s, a, s.heap[a].(waiting := true)), c, r.(pc := Sleeping))
    else if s.heap[a].vnode.Some? then
      SetCall(s, c, r.(pc := Getting, vnode := s.heap[a].vnode))
    else
      SetCall(SetNode(s, a, s.heap[a].(attaching := true)), c, r.(pc := Creating, vnode := None))
  }

  /** From the top of the loop, mutex held, to the point where the mutex is dropped. */
  function LoopTop(s: State, c: Call): State
    requires |s.buckets| == BUCKETS && c in s.calls
  {
    var r := s.calls[c];
    var bucket := s.buckets[BucketOf(r.key)];
    var s1 := SetCall(Fault(s, forall a :: a in bucket ==> a in s.heap), c, r.(error := 0));
    match FindIn(bucket, s.heap, r.key)
    case Some(a) => Proceed(s1, c, a)
    case None =>
      if r.newNode.None? then SetCall(s1, c, r.(pc := Allocating, target := None, error := 0))
      else Proceed(Insert(s1, c, r.newNode.value), c, r.newNode.value)
  }

  /** Lines 256-268, then the loop again: the vnode changed identity. */
  function RetryAfterGet(s: State, c: Call): State
    requires |s.buckets| == BUCKETS && c in s.calls
  {
    var r := s.calls[c];
    if !r.inserted && r.newNode.Some? then
      LoopTop(SetCall(FreeSpare(s, r.newNode.value), c, r.(newNode := None, target := None)), c)
    else
      LoopTop(SetCall(s, c, r.(target := None)), c)
  }

  /** Lines 300-346: back from create_vnode_func, mutex retaken. */
  function FinishCreate(s: State, c: Call): State
    requires |s.buckets| == BUCKETS && c in s.calls && s.calls[c].target.Some?
  {
    var r := s.calls[c];
    var a := r.target.value;
    if a !in s.heap then Fault(s, false)
    else
      var woken := if s.heap[a].waiting then WakeAll(s, a) else s;
      var s1 := SetNode(woken, a, s.heap[a].(attaching := false, waiting := false));
      if r.error != 0 then
        SetCall(FreeNode(s1, a), c,
                r.(pc := Exiting, target := None, newNode := if r.newNode == Some(a) then None else r.newNode))
      else
        SetCall(SetNode(s1, a, s1.heap[a].(vnode := r.vnode)), c, r.(pc := Exiting))
  }

  /** Lines 352-363: free the spare if it was not used, and return. */
  function Leave(s: State, c: Call): State
    requires c in s.calls
  {
    var r := s.calls[c];
    if r.newNode.Some? && r.newNode != r.target && !r.inserted then
      SetCall(FreeSpare(s, r.newNode.value), c, r.(pc := Returned, newNode := None))
    else
      SetCall(s, c, r.(pc := Returned))
  }

  // ---------- Steps

  datatype Action =
    | Begin(c: Call, key: Key)
    | Lock(c: Call)                                    // take the mutex and run to the next release
    | Malloc(c: Call, a: Option<Addr>, garbage: Node)  // OSMalloc returns
    | SpuriousWake(c: Call)
    | GetVnode(c: Call, ok: bool)                      // vnode_getwithvid returns
    | CreateVnode(c: Call, made: Option<Vnode>, error: int)  // create_vnode_func returns
    | Finish(c: Call)
    | Exit(c: Call)
    | Put(c: Call)                                     // the caller drops its result (vnode_put)
    | ReclaimStart(v: Vnode)                           // VFS picks an idle vnode
    | Reclaim(v: Vnode)                                // sysfs_vnop_reclaim

  predicate At(s: State, c: Call, pcs: set<Pc>) {
    c in s.calls && s.calls[c].pc in pcs
  }

  /** What the code and the kernel contracts allow in state `s`. */
  predicate Enabled(s: State, act: Action)
  {
    |s.buckets| == BUCKETS &&
    match act
    case Begin(c, _) => c !in s.calls
    case Lock(c) => At(s, c, {Entering, Woken, GetFailed})
    case Malloc(c, a, _) => At(s, c, {Allocating}) && (a.Some? ==> a.value !in s.heap)
    case SpuriousWake(c) => At(s, c, {Sleeping})
    case GetVnode(c, ok) =>
      At(s, c, {Getting}) && s.calls[c].vnode.Some? &&
      (ok ==> s.calls[c].vnode.value in s.vnodes && s.vnodes[s.calls[c].vnode.value].phase == Live)
    case CreateVnode(c, v, error) =>
      At(s, c, {Creating}) && s.calls[c].target.Some? &&
      (v.Some? <==> error == 0) && (v.Some? ==> v.value !in s.vnodes)
    case Finish(c) => At(s, c, {Created}) && s.calls[c].target.Some?
    case Exit(c) => At(s, c, {Exiting})
    case Put(c) => At(s, c, {Returned}) && (s.calls[c].error == 0 ==> s.calls[c].vnode.Some?)
    case ReclaimStart(v) => v in s.vnodes && s.vnodes[v].phase == Live && s.vnodes[v].refs == {}
    case Reclaim(v) => v in s.vnodes && s.vnodes[v].phase == Dying
  }

  function SetRefs(s: State, v: Vnode, refs: set<Call>): State {
    if v in s.vnodes then s.(vnodes := s.vnodes[v := s.vnodes[v].(refs := refs)]) else Fault(s, false)
  }

  function Step(s: State, act: Action): State
    requires Enabled(s, act)
  {
    match act
    case Begin(c, key) => SetCall(s, c, CallRec(Entering, key, None, false, None, None, 0))
    case Lock(c) => if s.calls[c].pc == GetFailed then RetryAfterGet(s, c) else LoopTop(s, c)
    case Malloc(c, a, garbage) =>
      if a.None? then SetCall(s, c, s.calls[c].(pc := Exiting, error := ENOMEM))
      else SetCall(s.(heap := s.heap[a.value := garbage]), c, s.calls[c].(pc := Entering, newNode := a))
    case SpuriousWake(c) => SetCall(s, c, s.calls[c].(pc := Woken))
    case GetVnode(c, ok) =>
      if !ok then SetCall(s, c, s.calls[c].(pc := GetFailed))
      else
        var v := s.calls[c].vnode.value;
        SetCall(SetRefs(s, v, s.vnodes[v].refs + {c}), c, s.calls[c].(pc := Exiting))
    case CreateVnode(c, v, error) =>
      var s1 := SetCall(Fault(s, s.calls[c].target.value in s.heap), c,
                        s.calls[c].(pc := Created, vnode := v, error := error));
      if v.None? then s1
      else s1.(vnodes := s1.vnodes[v.value := VnodeRec(s.calls[c].target.value, Live, {c})])
    case Finish(c) => FinishCreate(s, c)
    case Exit(c) => Leave(s, c)
    case Put(c) =>
      var s1 := s.(calls := s.calls - {c});
      if s.calls[c].error != 0 then s1
      else if s.calls[c].vnode.value !in s.vnodes then Fault(s1, false)
      else SetRefs(s1, s.calls[c].vnode.value, s.vnodes[s.calls[c].vnode.value].refs - {c})
    case ReclaimStart(v) => s.(vnodes := s.vnodes[v := s.vnodes[v].(phase := Dying)])
    case Reclaim(v) =>
      FreeNode(s, s.vnodes[v].fsnode).(vnodes := s.vnodes[v := s.vnodes[v].(phase := Dead)])
  }

  predicate Initial(s: State) {
    s.buckets == seq(BUCKETS, _ => []) && s.heap == map[] && s.liveNodes == 0 &&
    s.calls == map[] && s.vnodes == map[] && !s.faulted
  }

  /** A run: an initial state and then the states reached by performing `acts` in order. */
  ghost predicate IsRun(states: seq<State>, acts: seq<Action>) {
    |states| == |acts| + 1 && Initial(states[0]) &&
    forall i :: 0 <= i < |acts| ==> Enabled(states[i], acts[i]) && states[i + 1] == Step(states[i], acts[i])
  }
}
