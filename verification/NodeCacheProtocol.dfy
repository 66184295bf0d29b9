/**
 The protocol invariant of the node cache. It looks at the table only as a set of
 addresses; that the buckets implement such a set is NodeCacheTable's business.
 */
module NodeCacheProtocol {
  import opened Wrappers
  import opened NodeCache

  datatype View = View(table: set<Addr>, heap: map<Addr, Node>, calls: map<Call, CallRec>, vnodes: map<Vnode, VnodeRec>)

  ghost predicate InTable(s: View, a: Addr) {
    a in s.table && a in s.heap
  }

  /** Call `c` is the one attaching a vnode to `a`. */
  ghost predicate Attaches(s: View, c: Call, a: Addr) {
    c in s.calls && s.calls[c].pc in {Creating, Created} && s.calls[c].target == Some(a)
  }

  /** Call `c` owns the allocated but uninserted node `a`. */
  ghost predicate OwnsSpare(s: View, c: Call, a: Addr) {
    c in s.calls && s.calls[c].newNode == Some(a) && !s.calls[c].inserted
  }

  /** Call `c` owns an iocount on `v`. */
  ghost predicate Holds(s: View, c: Call, v: Vnode) {
    c in s.calls && s.calls[c].pc in {Created, Exiting, Returned} && s.calls[c].error == 0 &&
    s.calls[c].vnode == Some(v)
  }

  /** A vnode record that is not dead and points back at node `a`. */
  ghost predicate Linked(s: View, v: Vnode, a: Addr) {
    v in s.vnodes && s.vnodes[v].phase != Dead && s.vnodes[v].fsnode == a
  }

  /** A table node is attached or being attached by somebody, never both and never neither. */
  ghost predicate NodeOk(s: View, a: Addr) {
    a in s.table ==>
      a in s.heap &&
      var n := s.heap[a];
      && (n.attaching <==> n.vnode.None?)
      && (n.waiting ==> n.attaching)
      && (n.attaching ==> exists c :: Attaches(s, c, a))
      && (n.vnode.Some? ==> Linked(s, n.vnode.value, a))
  }

  ghost predicate SleepOk(s: View, r: CallRec) {
    r.target.Some? && InTable(s, r.target.value) &&
    s.heap[r.target.value].attaching && s.heap[r.target.value].waiting
  }

  ghost predicate AttachOk(s: View, r: CallRec) {
    r.target.Some? && r.newNode == r.target && r.inserted && InTable(s, r.target.value) &&
    s.heap[r.target.value].attaching && s.heap[r.target.value].key == r.key
  }

  /** The vnode the call has picked up belongs to its target, which has the wanted identity. */
  ghost predicate FoundOk(s: View, r: CallRec) {
    r.target.Some? && InTable(s, r.target.value) && s.heap[r.target.value].key == r.key &&
    s.heap[r.target.value].vnode == r.vnode
  }

  ghost predicate LinkOk(s: View, r: CallRec) {
    r.vnode.Some? && r.vnode.value in s.vnodes && r.target == Some(s.vnodes[r.vnode.value].fsnode)
  }

  ghost predicate IsLive(s: View, v: Option<Vnode>) {
    v.Some? && v.value in s.vnodes && s.vnodes[v.value].phase == Live
  }

  /** What a finished call hands out: on success, a live node of the wanted identity and its vnode. */
  ghost predicate ResultOk(s: View, r: CallRec) {
    if r.error == 0 then
      LinkOk(s, r) && IsLive(s, r.vnode) && FoundOk(s, r) && (r.inserted ==> r.newNode == r.target)
    else r.newNode.None?
  }

  ghost predicate RecOk(s: View, r: CallRec) {
    (r.newNode.Some? && !r.inserted ==> r.newNode.value in s.heap && r.newNode.value !in s.table) &&
    match r.pc
    case Entering => !r.inserted
    case Allocating => !r.inserted && r.newNode.None? && r.target.None?
    case Woken => !r.inserted
    case GetFailed => !r.inserted
    case Sleeping => !r.inserted && SleepOk(s, r)
    case Getting =>
      !r.inserted && r.error == 0 && LinkOk(s, r) && (s.vnodes[r.vnode.value].phase != Dead ==> FoundOk(s, r))
    case Creating => AttachOk(s, r)
    case Created =>
      AttachOk(s, r) && (r.error == 0 <==> r.vnode.Some?) && (r.error == 0 ==> LinkOk(s, r) && IsLive(s, r.vnode))
    case Exiting => ResultOk(s, r)
    case Returned => ResultOk(s, r) && (r.newNode.Some? ==> r.inserted)
  }

  ghost predicate CallOk(s: View, c: Call) {
    c in s.calls ==> RecOk(s, s.calls[c])
  }

  ghost predicate VnodeOk(s: View, v: Vnode) {
    v in s.vnodes ==>
      && (forall c :: c in s.vnodes[v].refs <==> Holds(s, c, v))
      && (s.vnodes[v].phase != Dead ==>
            InTable(s, s.vnodes[v].fsnode) &&
            (s.heap[s.vnodes[v].fsnode].vnode == Some(v) ||
             exists c :: Attaches(s, c, s.vnodes[v].fsnode) && Holds(s, c, v)))
  }

  ghost predicate Exclusive(s: View) {
    && (forall c, d, a :: Attaches(s, c, a) && Attaches(s, d, a) ==> c == d)
    && (forall c, d, a :: OwnsSpare(s, c, a) && OwnsSpare(s, d, a) ==> c == d)
  }

  ghost predicate KeptNode(s: View, a: Addr) {
    a in s.heap ==> a in s.table || exists c :: OwnsSpare(s, c, a)
  }

  ghost predicate UniqueKeys(s: View) {
    forall a, a' :: InTable(s, a) && InTable(s, a') && s.heap[a].key == s.heap[a'].key ==> a == a'
  }

  ghost predicate ProtocolOk(s: View) {
    && UniqueKeys(s)
    && (forall a :: NodeOk(s, a))
    && (forall c :: CallOk(s, c))
    && (forall v :: VnodeOk(s, v))
    && Exclusive(s)
    && (forall a :: KeptNode(s, a))
  }

  // ---------- Framing: a step that leaves what a clause looks at alone keeps the clause

  ghost predicate SameNode(s: View, s': View, a: Addr) {
    (a in s.table <==> a in s'.table) && (a in s.heap <==> a in s'.heap) &&
    (a in s.heap ==> s'.heap[a] == s.heap[a])
  }

  /** Like SameNode, but the waiting flag may have been raised. */
  ghost predicate SameButWaiting(s: View, s': View, a: Addr) {
    InTable(s, a) && InTable(s', a) &&
    (s'.heap[a] == s.heap[a] || s'.heap[a] == s.heap[a].(waiting := true))
  }

  ghost predicate KeepsVnode(s: View, s': View, v: Vnode) {
    v in s.vnodes ==>
      v in s'.vnodes && s'.vnodes[v].fsnode == s.vnodes[v].fsnode && s'.vnodes[v].phase == s.vnodes[v].phase
  }

  ghost predicate SameOtherCalls(s: View, s': View, c: Call) {
    (forall d :: d != c ==> (d in s'.calls <==> d in s.calls)) &&
    (forall d :: d != c && d in s.calls ==> s'.calls[d] == s.calls[d])
  }

  lemma NodeKeeps(s: View, s': View, a: Addr)
    requires NodeOk(s, a) && SameNode(s, s', a)
    requires forall c :: Attaches(s, c, a) ==> Attaches(s', c, a)
    requires forall v :: Linked(s, v, a) ==> Linked(s', v, a)
    ensures NodeOk(s', a)
  {
  }

  lemma RecKeeps(s: View, s': View, r: CallRec)
    requires RecOk(s, r)
    requires r.newNode.Some? && !r.inserted ==> SameNode(s, s', r.newNode.value)
    requires r.target.Some? && InTable(s, r.target.value) ==> SameButWaiting(s, s', r.target.value)
    requires r.vnode.Some? ==> KeepsVnode(s, s', r.vnode.value)
    ensures RecOk(s', r)
  {
  }

  lemma VnodeKeeps(s: View, s': View, v: Vnode)
    requires VnodeOk(s, v) && v in s.vnodes && v in s'.vnodes && s'.vnodes[v] == s.vnodes[v]
    requires s.vnodes[v].phase != Dead ==> SameButWaiting(s, s', s.vnodes[v].fsnode)
    requires forall c :: Holds(s, c, v) <==> Holds(s', c, v)
    requires s.vnodes[v].phase != Dead ==>
               forall c :: Attaches(s, c, s.vnodes[v].fsnode) ==> Attaches(s', c, s.vnodes[v].fsnode)
    ensures VnodeOk(s', v)
  {
  }

  lemma KeptKeeps(s: View, s': View, a: Addr)
    requires KeptNode(s, a) && SameNode(s, s', a)
    requires forall c :: OwnsSpare(s, c, a) ==> OwnsSpare(s', c, a)
    ensures KeptNode(s', a)
  {
  }

  // ---------- Steps that leave the table alone

  lemma OneCall(s: View, s': View, c: Call)
    requires ProtocolOk(s)
    requires s' == s.(calls := s'.calls)
    requires SameOtherCalls(s, s', c) && CallOk(s', c)
    requires forall a :: Attaches(s', c, a) <==> Attaches(s, c, a)
    requires forall a :: OwnsSpare(s', c, a) <==> OwnsSpare(s, c, a)
    requires forall v :: Holds(s', c, v) <==> Holds(s, c, v)
    ensures ProtocolOk(s')
  {
    assert forall d, a :: Attaches(s', d, a) <==> Attaches(s, d, a);
    assert forall d, a :: OwnsSpare(s', d, a) <==> OwnsSpare(s, d, a);
    assert forall d, v :: Holds(s', d, v) <==> Holds(s, d, v);
    forall a ensures NodeOk(s', a) && KeptNode(s', a) {
      NodeKeeps(s, s', a);
      KeptKeeps(s, s', a);
    }
    forall d ensures CallOk(s', d) {
      if d != c && d in s.calls {
        assert CallOk(s, d);
        RecKeeps(s, s', s.calls[d]);
      }
    }
    forall v ensures VnodeOk(s', v) {
      if v in s.vnodes { VnodeKeeps(s, s', v); }
    }
  }

  /** Call `c` gains or loses the spare `a`. */
  lemma OneSpare(s: View, s': View, c: Call, a: Addr)
    requires ProtocolOk(s) && a !in s.table
    requires s' == s.(calls := s'.calls, heap := s'.heap)
    requires forall x :: x != a ==> SameNode(s, s', x)
    requires SameOtherCalls(s, s', c) && CallOk(s', c)
    requires forall x :: Attaches(s', c, x) <==> Attaches(s, c, x)
    requires forall d :: d != c ==> !OwnsSpare(s, d, a)
    requires OwnsSpare(s', c, a) <==> a in s'.heap
    requires forall x :: x != a ==> (OwnsSpare(s', c, x) <==> OwnsSpare(s, c, x))
    requires forall v :: Holds(s', c, v) <==> Holds(s, c, v)
    ensures ProtocolOk(s')
  {
    assert forall d, x :: d != c ==> (OwnsSpare(s', d, x) <==> OwnsSpare(s, d, x));
    assert forall d, x :: Attaches(s', d, x) <==> Attaches(s, d, x);
    assert forall d, v :: Holds(s', d, v) <==> Holds(s, d, v);
    forall x, y | InTable(s', x) && InTable(s', y) && s'.heap[x].key == s'.heap[y].key ensures x == y {
      assert SameNode(s, s', x) && SameNode(s, s', y);
    }
    forall x ensures NodeOk(s', x) && KeptNode(s', x) {
      if x != a {
        NodeKeeps(s, s', x);
        KeptKeeps(s, s', x);
      }
    }
    forall d ensures CallOk(s', d) {
      if d != c && d in s.calls {
        assert CallOk(s, d) && !OwnsSpare(s, d, a);
        assert forall x :: InTable(s, x) ==> SameNode(s, s', x);
        RecKeeps(s, s', s.calls[d]);
      }
    }
    forall v ensures VnodeOk(s', v) {
      if v in s.vnodes {
        assert VnodeOk(s, v) && (s.vnodes[v].fsnode != a ==> SameNode(s, s', s.vnodes[v].fsnode));
        VnodeKeeps(s, s', v);
      }
    }
  }

  /** Call `c` changes, and the only vnode that changes is `v`. */
  lemma OneVnode(s: View, s': View, c: Call, v: Vnode)
    requires ProtocolOk(s)
    requires s' == s.(calls := s'.calls, vnodes := s'.vnodes)
    requires SameOtherCalls(s, s', c) && CallOk(s', c) && VnodeOk(s', v)
    requires forall w :: w != v ==> (w in s'.vnodes <==> w in s.vnodes)
    requires forall w :: w != v && w in s.vnodes ==> s'.vnodes[w] == s.vnodes[w]
    requires KeepsVnode(s, s', v)
    requires forall a :: Attaches(s', c, a) <==> Attaches(s, c, a)
    requires forall a :: OwnsSpare(s', c, a) <==> OwnsSpare(s, c, a)
    requires forall w :: w != v ==> (Holds(s', c, w) <==> Holds(s, c, w))
    ensures ProtocolOk(s')
  {
    assert forall d, a :: Attaches(s', d, a) <==> Attaches(s, d, a);
    assert forall d, a :: OwnsSpare(s', d, a) <==> OwnsSpare(s, d, a);
    assert forall d, w :: w != v ==> (Holds(s', d, w) <==> Holds(s, d, w));
    forall a ensures NodeOk(s', a) && KeptNode(s', a) {
      assert forall w :: Linked(s, w, a) ==> Linked(s', w, a);
      NodeKeeps(s, s', a);
      KeptKeeps(s, s', a);
    }
    forall d ensures CallOk(s', d) {
      if d != c && d in s.calls {
        assert CallOk(s, d);
        RecKeeps(s, s', s.calls[d]);
      }
    }
    forall w ensures VnodeOk(s', w) {
      if w in s.vnodes && w != v {
        assert VnodeOk(s, w);
        VnodeKeeps(s, s', w);
      }
    }
  }

  lemma MallocOk(s: View, s': View, c: Call, a: Addr, garbage: Node)
    requires ProtocolOk(s) && c in s.calls && s.calls[c].pc == Allocating && a !in s.heap
    requires s' == s.(heap := s.heap[a := garbage],
                      calls := s.calls[c := s.calls[c].(pc := Entering, newNode := Some(a))])
    ensures ProtocolOk(s')
  {
    assert CallOk(s, c) && NodeOk(s, a);
    forall d | d in s.calls ensures !OwnsSpare(s, d, a) { assert CallOk(s, d); }
    OneSpare(s, s', c, a);
  }

  /** Freeing the spare a call owns, with the call forgetting it, is harmless. */
  lemma DropSpareOk(s: View, s': View, c: Call)
    requires ProtocolOk(s) && c in s.calls && s.calls[c].newNode.Some? && !s.calls[c].inserted
    requires s' == s.(heap := s.heap - {s.calls[c].newNode.value}, calls := s'.calls)
    requires SameOtherCalls(s, s', c) && c in s'.calls && s'.calls[c].newNode.None? && CallOk(s', c)
    requires forall x :: Attaches(s', c, x) <==> Attaches(s, c, x)
    requires forall v :: Holds(s', c, v) <==> Holds(s, c, v)
    ensures ProtocolOk(s')
  {
    assert CallOk(s, c) && OwnsSpare(s, c, s.calls[c].newNode.value);
    OneSpare(s, s', c, s.calls[c].newNode.value);
  }

  lemma GetVnodeOk(s: View, s': View, c: Call, v: Vnode)
    requires ProtocolOk(s) && c in s.calls && s.calls[c].pc == Getting && s.calls[c].vnode == Some(v)
    requires v in s.vnodes && s.vnodes[v].phase == Live
    requires s' == s.(vnodes := s.vnodes[v := s.vnodes[v].(refs := s.vnodes[v].refs + {c})],
                      calls := s.calls[c := s.calls[c].(pc := Exiting)])
    ensures ProtocolOk(s')
  {
    assert CallOk(s, c) && VnodeOk(s, v);
    assert forall d :: Holds(s', d, v) <==> d == c || Holds(s, d, v);
    assert forall d, a :: Attaches(s', d, a) <==> Attaches(s, d, a);
    OneVnode(s, s', c, v);
  }

  lemma CreateVnodeOk(s: View, s': View, c: Call, v: Vnode)
    requires ProtocolOk(s) && c in s.calls && s.calls[c].pc == Creating && s.calls[c].target.Some?
    requires v !in s.vnodes
    requires s' == s.(vnodes := s.vnodes[v := VnodeRec(s.calls[c].target.value, Live, {c})],
                      calls := s.calls[c := s.calls[c].(pc := Created, vnode := Some(v), error := 0)])
    ensures ProtocolOk(s')
  {
    assert CallOk(s, c);
    forall d | d != c && d in s.calls ensures !Holds(s', d, v) { assert CallOk(s, d); }
    assert Attaches(s', c, s.calls[c].target.value) && Holds(s', c, v);
    OneVnode(s, s', c, v);
  }

  lemma PutOk(s: View, s': View, c: Call, v: Vnode)
    requires ProtocolOk(s) && c in s.calls && s.calls[c].pc == Returned && s.calls[c].error == 0
    requires s.calls[c].vnode == Some(v) && v in s.vnodes
    requires s' == s.(vnodes := s.vnodes[v := s.vnodes[v].(refs := s.vnodes[v].refs - {c})], calls := s.calls - {c})
    ensures ProtocolOk(s')
  {
    assert CallOk(s, c) && VnodeOk(s, v);
    assert forall d :: Holds(s', d, v) <==> d != c && Holds(s, d, v);
    assert forall d, a :: Attaches(s', d, a) <==> Attaches(s, d, a);
    OneVnode(s, s', c, v);
  }

  /** The vnode of a call that owns an iocount is live, so an idle vnode belongs to no call's result. */
  lemma ReclaimStartOk(s: View, s': View, v: Vnode)
    requires ProtocolOk(s) && v in s.vnodes && s.vnodes[v].phase == Live && s.vnodes[v].refs == {}
    requires s' == s.(vnodes := s.vnodes[v := s.vnodes[v].(phase := Dying)])
    ensures ProtocolOk(s')
  {
    assert VnodeOk(s, v);
    assert forall d, a :: Attaches(s', d, a) <==> Attaches(s, d, a);
    assert forall d, a :: OwnsSpare(s', d, a) <==> OwnsSpare(s, d, a);
    assert forall d, w :: Holds(s', d, w) <==> Holds(s, d, w);
    forall a ensures NodeOk(s', a) && KeptNode(s', a) {
      assert forall w :: Linked(s, w, a) ==> Linked(s', w, a);
      NodeKeeps(s, s', a);
      KeptKeeps(s, s', a);
    }
    forall d ensures CallOk(s', d) {
      assert CallOk(s, d) && !Holds(s, d, v);
    }
    forall w ensures VnodeOk(s', w) {
      assert VnodeOk(s, w);
      if w in s.vnodes && w != v { VnodeKeeps(s, s', w); }
    }
  }
}
