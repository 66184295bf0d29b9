/**
 The critical sections of sysfs_node.c and sysfs_vnop_reclaim() as code over a shared
 table. Each method is entered with the hash mutex held, in a state the invariant
 allows, and is proved to perform exactly one step of the transition system. A node is
 read, written or freed only where it is proved to be allocated.
 */
module NodeCacheCode {
  import opened Wrappers
  import opened NodeCache
  import opened NodeCacheProtocol
  import opened NodeCacheSteps
  import opened NodeCacheTable
  import opened NodeCacheTheorems

  class NodeTable {
    const buckets: array<seq<Addr>>
    var heap: map<Addr, Node>
    var liveNodes: int
    var calls: map<Call, CallRec>
    var vnodes: map<Vnode, VnodeRec>

    ghost function Value(): State
      reads this, buckets
    {
      State(buckets[..], heap, liveNodes, calls, vnodes, false)
    }

    constructor ()
      ensures fresh(buckets) && Initial(Value()) && Inv(Value())
    {
      buckets := new seq<Addr>[BUCKETS](_ => []);
      heap, liveNodes, calls, vnodes := map[], 0, map[], map[];
      new;
      assert buckets[..] == seq(BUCKETS, _ => []);
      InitialInv(Value());
    }

    /** Lines 129-141: walk one bucket for the first node with the wanted identity. */
    method FindNode(key: Key) returns (target: Option<Addr>)
      requires TableOk(Value())
      ensures target == FindIn(buckets[BucketOf(key)], heap, key)
    {
      FindDecides(Value(), key);
      var bucket := buckets[BucketOf(key)];
      var i := 0;
      while i < |bucket|
        invariant 0 <= i <= |bucket|
        invariant FindIn(bucket, heap, key) == FindIn(bucket[i..], heap, key)
      {
        assert bucket[i] in bucket;
        if heap[bucket[i]].key == key {
          return Some(bucket[i]);
        }
        assert bucket[i..][1..] == bucket[i + 1..];
        i := i + 1;
      }
      return None;
    }

    /** sysfsnode_free_node(). */
    method FreeNode(a: Addr)
      requires TableOk(Value()) && a in Members(buckets[..])
      modifies this`heap, this`liveNodes, buckets
      ensures Value() == NodeCache.FreeNode(old(Value()), a)
    {
      FreeNodeKeepsTable(Value(), a);
      ghost var b0 :| 0 <= b0 < BUCKETS && a in buckets[b0];
      assert InRightBucket(heap, b0, a);
      var b := BucketOf(heap[a].key);
      buckets[b] := Removed(buckets[b], a);
      liveNodes := liveNodes - 1;
      heap := heap - {a};
    }

    /** Lines 187-203: the spare becomes the table node that a search for its identity finds. */
    method Insert(c: Call, a: Addr)
      requires TableOk(Value()) && c in calls && a in heap && a !in Members(buckets[..])
      modifies this`heap, this`liveNodes, this`calls, buckets
      ensures Value() == NodeCache.Insert(old(Value()), c, a)
      ensures TableOk(Value()) && Members(buckets[..]) == old(Members(buckets[..])) + {a}
      ensures FindIn(buckets[BucketOf(old(calls)[c].key)], heap, old(calls)[c].key) == Some(a)
    {
      InsertKeepsTable(Value(), c, a);
      var key := calls[c].key;
      var b := BucketOf(key);
      heap := heap[a := Node(key, None, false, false)];
      buckets[b] := [a] + buckets[b];
      liveNodes := liveNodes + 1;
      calls := calls[c := calls[c].(inserted := true)];
    }

    /** Lines 219-290: sleep on the attacher, try the vnode, or claim the attach. */
    method Proceed(c: Call, a: Addr)
      requires c in calls && a in heap
      modifies this`heap, this`calls
      ensures Value() == NodeCache.Proceed(old(Value()), c, a)
    {
      var r := calls[c].(target := Some(a));
      if heap[a].attaching {
        heap := heap[a := heap[a].(waiting := true)];
        calls := calls[c := r.(pc := Sleeping)];
      } else if heap[a].vnode.Some? {
        calls := calls[c := r.(pc := Getting, vnode := heap[a].vnode)];
      } else {
        heap := heap[a := heap[a].(attaching := true)];
        calls := calls[c := r.(pc := Creating, vnode := None)];
      }
    }

    /** From the top of the loop of sysfsnode_find() to the point where the mutex is released. */
    method LoopTop(c: Call)
      requires Inv(Value()) && c in calls && calls[c].pc in {Entering, Woken, GetFailed}
      modifies this`heap, this`liveNodes, this`calls, buckets
      ensures Value() == NodeCache.LoopTop(old(Value()), c)
      ensures Inv(Value())
    {
      LoopTopInv(Value(), c);
      FindDecides(Value(), calls[c].key);
      assert CallOk(Abs(Value()), c);
      var target := FindNode(calls[c].key);
      calls := calls[c := calls[c].(error := 0)];
      if target.None? {
        if calls[c].newNode.None? {
          calls := calls[c := calls[c].(pc := Allocating, target := None)];
          return;
        }
        target := calls[c].newNode;
        Insert(c, target.value);
      }
      Proceed(c, target.value);
    }

    /** Lines 256-268 and round the loop: vnode_getwithvid() found that the vnode changed identity. */
    method RetryAfterGet(c: Call)
      requires Inv(Value()) && c in calls && calls[c].pc == GetFailed
      modifies this`heap, this`liveNodes, this`calls, buckets
      ensures Value() == NodeCache.RetryAfterGet(old(Value()), c)
      ensures Inv(Value())
    {
      ghost var was := Value();
      assert CallOk(Abs(was), c);
      var r := calls[c];
      if !r.inserted && r.newNode.Some? {
        heap := heap - {r.newNode.value};
        calls := calls[c := r.(newNode := None, target := None)];
        SpareKeepsTable(was, Value(), r.newNode.value);
        DropSpareOk(Abs(was), Abs(Value()), c);
      } else {
        calls := calls[c := r.(target := None)];
        OneCall(Abs(was), Abs(Value()), c);
      }
      LoopTop(c);
    }

    /** Lines 302-311: the attach is over; wake everybody who waits for it. */
    method EndAttach(a: Addr)
      requires a in heap
      modifies this`heap, this`calls
      ensures var woken := if old(heap)[a].waiting then WakeAll(old(Value()), a) else old(Value());
              Value() == SetNode(woken, a, old(heap)[a].(attaching := false, waiting := false))
    {
      heap := heap[a := heap[a].(attaching := false)];
      if heap[a].waiting {
        heap := heap[a := heap[a].(waiting := false)];
        calls := map d | d in calls ::
          if calls[d].pc == Sleeping && calls[d].target == Some(a) then calls[d].(pc := Woken) else calls[d];
      }
    }

    /** Lines 300-338: back from create_vnode_func; wake the waiters, then link the vnode or give the node up. */
    method FinishCreate(c: Call)
      requires Inv(Value()) && c in calls && calls[c].pc == Created && calls[c].target.Some?
      modifies this`heap, this`liveNodes, this`calls, buckets
      ensures Value() == NodeCache.FinishCreate(old(Value()), c)
      ensures Inv(Value())
    {
      FinishInv(Value(), c);
      assert CallOk(Abs(Value()), c);
      var r := calls[c];
      var a := r.target.value;
      SetNodeKeepsTable(Value(), a, heap[a].(attaching := false, waiting := false));
      EndAttach(a);
      if r.error != 0 {
        FreeNode(a);
        var spare := if r.newNode == Some(a) then None else r.newNode;
        calls := calls[c := r.(pc := Exiting, target := None, newNode := spare)];
      } else {
        heap := heap[a := heap[a].(vnode := r.vnode)];
        calls := calls[c := r.(pc := Exiting)];
      }
    }

    /** Lines 352-363: the exit path, entered without the mutex. */
    method Leave(c: Call)
      requires Inv(Value()) && c in calls && calls[c].pc == Exiting
      modifies this`heap, this`calls
      ensures Value() == NodeCache.Leave(old(Value()), c)
      ensures Inv(Value())
    {
      LeaveInv(Value(), c);
      ghost var was := Value();
      assert CallOk(Abs(was), c);
      var r := calls[c];
      if r.newNode.Some? && r.newNode != r.target && !r.inserted {
        heap := heap - {r.newNode.value};
        r := r.(newNode := None);
      }
      calls := calls[c := r.(pc := Returned)];
    }

    /** sysfs_vnop_reclaim(). */
    method Reclaim(v: Vnode)
      requires Inv(Value()) && v in vnodes && vnodes[v].phase == Dying
      modifies this`heap, this`liveNodes, this`vnodes, buckets
      ensures Value() == Step(old(Value()), Action.Reclaim(v))
      ensures Inv(Value())
    {
      StepKeepsInv(Value(), Action.Reclaim(v));
      DyingIsLinked(Abs(Value()), v);
      FreeNode(vnodes[v].fsnode);
      vnodes := vnodes[v := vnodes[v].(phase := Dead)];
    }
  }
}
