/**
 The steps of the node cache that change the table or a node in it: each keeps the protocol.
 */
module NodeCacheSteps {
  import opened Wrappers
  import opened NodeCache
  import opened NodeCacheProtocol

  /** Once nobody attaches, owns or was promised `a`, the protocol survives its removal. */
  lemma RemovedNode(s: View, s': View, a: Addr)
    requires ProtocolOk(s) && s'.table == s.table - {a} && s'.heap == s.heap - {a}
    requires forall c, x :: x != a ==> (Attaches(s', c, x) <==> Attaches(s, c, x))
    requires forall c, x :: x != a ==> (OwnsSpare(s', c, x) <==> OwnsSpare(s, c, x))
    requires forall c :: !Attaches(s', c, a) && !OwnsSpare(s', c, a)
    requires forall c :: CallOk(s', c)
    requires forall v :: VnodeOk(s', v)
    requires forall v, x :: x != a && Linked(s, v, x) ==> Linked(s', v, x)
    ensures ProtocolOk(s')
  {
    forall x, y | InTable(s', x) && InTable(s', y) && s'.heap[x].key == s'.heap[y].key ensures x == y {
      assert InTable(s, x) && InTable(s, y);
    }
    forall x ensures NodeOk(s', x) && KeptNode(s', x) {
      if x != a {
        NodeKeeps(s, s', x);
        KeptKeeps(s, s', x);
      }
    }
  }

  /** A vnode being reclaimed is linked to its node, which no call attaches, owns or holds. */
  lemma DyingIsLinked(s: View, v: Vnode)
    requires ProtocolOk(s) && v in s.vnodes && s.vnodes[v].phase == Dying
    ensures var a := s.vnodes[v].fsnode;
            InTable(s, a) && s.heap[a] == Node(s.heap[a].key, Some(v), false, false)
    ensures forall c :: !Holds(s, c, v) && !Attaches(s, c, s.vnodes[v].fsnode) &&
                        !OwnsSpare(s, c, s.vnodes[v].fsnode)
    ensures forall w :: Linked(s, w, s.vnodes[v].fsnode) ==> w == v
  {
    var a := s.vnodes[v].fsnode;
    assert VnodeOk(s, v) && NodeOk(s, a);
    forall c ensures !Holds(s, c, v) && !Attaches(s, c, a) && !OwnsSpare(s, c, a) { assert CallOk(s, c); }
    forall w | Linked(s, w, a) ensures w == v { assert VnodeOk(s, w); }
  }

  lemma ReclaimOk(s: View, s': View, v: Vnode)
    requires ProtocolOk(s) && v in s.vnodes && s.vnodes[v].phase == Dying
    requires s' == s.(table := s.table - {s.vnodes[v].fsnode}, heap := s.heap - {s.vnodes[v].fsnode},
                      vnodes := s.vnodes[v := s.vnodes[v].(phase := Dead)])
    ensures ProtocolOk(s')
  {
    var a := s.vnodes[v].fsnode;
    DyingIsLinked(s, v);
    assert forall c, x :: Attaches(s', c, x) <==> Attaches(s, c, x);
    assert forall c, x :: OwnsSpare(s', c, x) <==> OwnsSpare(s, c, x);
    assert forall c, w :: Holds(s', c, w) <==> Holds(s, c, w);
    forall c ensures CallOk(s', c) {
      assert CallOk(s, c) && !OwnsSpare(s, c, a) && !Attaches(s, c, a) && !Holds(s, c, v);
    }
    forall w ensures VnodeOk(s', w) {
      assert VnodeOk(s, w);
      if w in s.vnodes && w != v {
        assert !Linked(s, w, a);
        VnodeKeeps(s, s', w);
      }
    }
    RemovedNode(s, s', a);
  }

  /** Going to sleep on a node another call is attaching. */
  lemma SleepStepOk(s: View, s': View, c: Call, a: Addr)
    requires ProtocolOk(s) && c in s.calls && InTable(s, a) && s.heap[a].attaching
    requires s.calls[c].pc in {Entering, Woken, GetFailed}
    requires s' == s.(heap := s.heap[a := s.heap[a].(waiting := true)], calls := s'.calls)
    requires SameOtherCalls(s, s', c) && c in s'.calls
    requires s'.calls[c] == s.calls[c].(pc := Sleeping, target := Some(a), error := s'.calls[c].error)
    ensures ProtocolOk(s')
  {
    assert CallOk(s, c) && NodeOk(s, a);
    assert forall d, x :: Attaches(s', d, x) <==> Attaches(s, d, x);
    assert forall d, x :: OwnsSpare(s', d, x) <==> OwnsSpare(s, d, x);
    assert forall d, w :: Holds(s', d, w) <==> Holds(s, d, w);
    forall x ensures NodeOk(s', x) && KeptNode(s', x) {
      if x != a {
        NodeKeeps(s, s', x);
        KeptKeeps(s, s', x);
      } else {
        assert exists d :: Attaches(s, d, a);
      }
    }
    forall d ensures CallOk(s', d) {
      assert CallOk(s, d);
      if d != c && d in s.calls {
        assert s.calls[d].newNode.Some? && !s.calls[d].inserted ==> s.calls[d].newNode.value != a;
        RecKeeps(s, s', s.calls[d]);
      }
    }
    forall v ensures VnodeOk(s', v) {
      assert VnodeOk(s, v);
      if v in s.vnodes { VnodeKeeps(s, s', v); }
    }
  }

  /** The spare enters the table under a key the table does not have, claimed for attaching. */
  lemma InsertOk(s: View, s': View, c: Call, a: Addr)
    requires ProtocolOk(s) && c in s.calls && s.calls[c].newNode == Some(a)
    requires s.calls[c].pc in {Entering, Woken, GetFailed}
    requires forall x :: InTable(s, x) ==> s.heap[x].key != s.calls[c].key
    requires s' == s.(table := s.table + {a}, heap := s.heap[a := Node(s.calls[c].key, None, true, false)],
                      calls := s'.calls)
    requires SameOtherCalls(s, s', c) && c in s'.calls
    requires s'.calls[c] == s.calls[c].(pc := Creating, target := Some(a), inserted := true, vnode := None,
                                        error := s'.calls[c].error)
    ensures ProtocolOk(s')
  {
    assert CallOk(s, c) && OwnsSpare(s, c, a) && a !in s.table;
    assert Attaches(s', c, a);
    forall d ensures d != c ==> !Attaches(s, d, a) && !OwnsSpare(s, d, a) { assert CallOk(s, d); }
    assert forall d, x :: d != c || x != a ==> (Attaches(s', d, x) <==> Attaches(s, d, x));
    assert forall d, x :: d != c ==> (OwnsSpare(s', d, x) <==> OwnsSpare(s, d, x));
    assert forall d, w :: Holds(s', d, w) <==> Holds(s, d, w);
    forall x, y | InTable(s', x) && InTable(s', y) && s'.heap[x].key == s'.heap[y].key ensures x == y {
      assert x != a ==> InTable(s, x);
      assert y != a ==> InTable(s, y);
    }
    forall x ensures NodeOk(s', x) && KeptNode(s', x) {
      if x != a {
        NodeKeeps(s, s', x);
        KeptKeeps(s, s', x);
      }
    }
    forall d ensures CallOk(s', d) {
      assert CallOk(s, d);
      if d != c && d in s.calls {
        assert !OwnsSpare(s, d, a);
        RecKeeps(s, s', s.calls[d]);
      }
    }
    forall v ensures VnodeOk(s', v) {
      assert VnodeOk(s, v);
      if v in s.vnodes { VnodeKeeps(s, s', v); }
    }
  }

  /** Every call has the part it had, and nothing but calls has changed. */
  ghost predicate SameRoles(s: View, s': View) {
    && s' == s.(calls := s'.calls)
    && (forall c, x :: Attaches(s', c, x) <==> Attaches(s, c, x))
    && (forall c, x :: OwnsSpare(s', c, x) <==> OwnsSpare(s, c, x))
    && (forall c, v :: Holds(s', c, v) <==> Holds(s, c, v))
  }

  lemma NodesStayOk(s: View, s': View, a: Addr)
    requires ProtocolOk(s) && SameRoles(s, s')
    ensures NodeOk(s', a) && KeptNode(s', a)
  {
    NodeKeeps(s, s', a);
    KeptKeeps(s, s', a);
  }

  lemma VnodesStayOk(s: View, s': View, v: Vnode)
    requires ProtocolOk(s) && SameRoles(s, s')
    ensures VnodeOk(s', v)
  {
    assert VnodeOk(s, v);
    if v in s.vnodes { VnodeKeeps(s, s', v); }
  }

  lemma WakeKeepsRoles(s: View, s': View, a: Addr)
    requires s' == s.(calls := s'.calls) && s'.calls.Keys == s.calls.Keys
    requires forall c :: c in s.calls ==>
               s'.calls[c] == if s.calls[c].pc == Sleeping && s.calls[c].target == Some(a)
                              then s.calls[c].(pc := Woken) else s.calls[c]
    ensures SameRoles(s, s')
  {
  }

  /** wakeup() on a channel. */
  lemma WakeOk(s: View, s': View, a: Addr)
    requires ProtocolOk(s) && s' == s.(calls := s'.calls) && s'.calls.Keys == s.calls.Keys
    requires forall c :: c in s.calls ==>
               s'.calls[c] == if s.calls[c].pc == Sleeping && s.calls[c].target == Some(a)
                              then s.calls[c].(pc := Woken) else s.calls[c]
    ensures ProtocolOk(s')
    ensures forall c :: c in s'.calls && s'.calls[c].pc == Sleeping ==> s'.calls[c].target != Some(a)
  {
    WakeKeepsRoles(s, s', a);
    forall x ensures NodeOk(s', x) && KeptNode(s', x) { NodesStayOk(s, s', x); }
    forall d ensures CallOk(s', d) { WokenOk(s, s', a, d); }
    forall v ensures VnodeOk(s', v) { VnodesStayOk(s, s', v); }
  }

  /** A call that wakeup() made runnable, or left alone. */
  lemma WokenOk(s: View, s': View, a: Addr, d: Call)
    requires ProtocolOk(s) && s' == s.(calls := s'.calls) && s'.calls.Keys == s.calls.Keys
    requires d in s.calls ==>
               s'.calls[d] == if s.calls[d].pc == Sleeping && s.calls[d].target == Some(a)
                              then s.calls[d].(pc := Woken) else s.calls[d]
    requires SameRoles(s, s')
    ensures CallOk(s', d)
  {
    assert CallOk(s, d);
    if d in s.calls && s'.calls[d] == s.calls[d] { RecKeeps(s, s', s.calls[d]); }
  }

  /** While `c` attaches `a`: no other call attaches it, none was promised it, only `c`'s vnode has it. */
  lemma AttachingIsExclusive(s: View, c: Call, a: Addr)
    requires ProtocolOk(s) && Attaches(s, c, a)
    requires forall d :: d in s.calls && s.calls[d].pc == Sleeping ==> s.calls[d].target != Some(a)
    ensures InTable(s, a) && s.heap[a].attaching && s.heap[a].vnode.None? && s.heap[a].key == s.calls[c].key
    ensures forall d :: d != c ==> !Attaches(s, d, a)
    ensures forall d :: !OwnsSpare(s, d, a)
    ensures forall d :: d != c && d in s.calls && s.calls[d].target == Some(a) ==>
              s.calls[d].pc in {Entering, Woken, GetFailed} ||
              (s.calls[d].pc in {Exiting, Returned} && s.calls[d].error != 0) ||
              (s.calls[d].pc == Getting && s.calls[d].vnode.Some? && s.calls[d].vnode.value in s.vnodes &&
               s.vnodes[s.calls[d].vnode.value].phase == Dead)
    ensures forall w :: Linked(s, w, a) ==> Holds(s, c, w)
  {
    assert CallOk(s, c) && NodeOk(s, a);
    forall d ensures !OwnsSpare(s, d, a) { assert CallOk(s, d); }
    forall d | d != c && d in s.calls && s.calls[d].target == Some(a)
      ensures s.calls[d].pc in {Entering, Woken, GetFailed} ||
              (s.calls[d].pc in {Exiting, Returned} && s.calls[d].error != 0) ||
              (s.calls[d].pc == Getting && s.calls[d].vnode.Some? && s.calls[d].vnode.value in s.vnodes &&
               s.vnodes[s.calls[d].vnode.value].phase == Dead)
    {
      assert CallOk(s, d) && !Attaches(s, d, a);
    }
    forall w | Linked(s, w, a) ensures Holds(s, c, w) { assert VnodeOk(s, w); }
  }

  /** The attach succeeded: the node gets its vnode. */
  lemma LinkVnodeOk(s: View, s': View, c: Call, a: Addr)
    requires ProtocolOk(s) && Attaches(s, c, a) && s.calls[c].pc == Created && s.calls[c].error == 0
    requires forall d :: d in s.calls && s.calls[d].pc == Sleeping ==> s.calls[d].target != Some(a)
    requires s'.heap == s.heap[a := Node(s.calls[c].key, s.calls[c].vnode, false, false)]
    requires s' == s.(heap := s'.heap, calls := s.calls[c := s.calls[c].(pc := Exiting)])
    ensures ProtocolOk(s')
  {
    AttachingIsExclusive(s, c, a);
    assert CallOk(s, c);
    assert forall d, x :: d != c ==> (Attaches(s', d, x) <==> Attaches(s, d, x));
    assert forall d, x :: OwnsSpare(s', d, x) <==> OwnsSpare(s, d, x);
    assert forall d, w :: Holds(s', d, w) <==> Holds(s, d, w);
    forall x ensures NodeOk(s', x) && KeptNode(s', x) {
      if x != a {
        NodeKeeps(s, s', x);
        KeptKeeps(s, s', x);
      }
    }
    forall d ensures CallOk(s', d) {
      assert CallOk(s, d);
      if d != c && d in s.calls && s.calls[d].target != Some(a) {
        assert !OwnsSpare(s, d, a);
        RecKeeps(s, s', s.calls[d]);
      }
    }
    forall v ensures VnodeOk(s', v) {
      assert VnodeOk(s, v);
      if v in s.vnodes && s.vnodes[v].phase != Dead && s.vnodes[v].fsnode == a {
        assert Linked(s, v, a);
      } else if v in s.vnodes {
        VnodeKeeps(s, s', v);
      }
    }
  }

  /** The attach failed: the node leaves the table and is freed. */
  lemma AbandonOk(s: View, s': View, c: Call, a: Addr)
    requires ProtocolOk(s) && Attaches(s, c, a) && s.calls[c].pc == Created && s.calls[c].error != 0
    requires forall d :: d in s.calls && s.calls[d].pc == Sleeping ==> s.calls[d].target != Some(a)
    requires s' == s.(table := s.table - {a}, heap := s.heap - {a},
                      calls := s.calls[c := s.calls[c].(pc := Exiting, target := None, newNode := None)])
    ensures ProtocolOk(s')
  {
    AttachingIsExclusive(s, c, a);
    assert CallOk(s, c);
    assert forall d, x :: x != a ==> (Attaches(s', d, x) <==> Attaches(s, d, x));
    assert forall d, x :: OwnsSpare(s', d, x) <==> OwnsSpare(s, d, x);
    assert forall d, w :: Holds(s', d, w) <==> Holds(s, d, w);
    forall d ensures CallOk(s', d) {
      assert CallOk(s, d);
      if d != c && d in s.calls && s.calls[d].target != Some(a) {
        assert !OwnsSpare(s, d, a);
        RecKeeps(s, s', s.calls[d]);
      }
    }
    forall v ensures VnodeOk(s', v) {
      assert VnodeOk(s, v) && !Linked(s, v, a);
      if v in s.vnodes { VnodeKeeps(s, s', v); }
    }
    RemovedNode(s, s', a);
  }
}
