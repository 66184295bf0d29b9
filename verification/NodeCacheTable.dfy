/**
 The bucket array of the node cache implements a set of addresses: every node sits in
 the bucket its identity hashes to, once, and the live counter is the number of nodes.
 */
module NodeCacheTable {
  import opened NodeCache

  ghost predicate NoDup(bucket: seq<Addr>) {
    forall i, j :: 0 <= i < j < |bucket| ==> bucket[i] != bucket[j]
  }

  function TotalLen(buckets: seq<seq<Addr>>): nat {
    if buckets == [] then 0 else |buckets[0]| + TotalLen(buckets[1..])
  }

  ghost function Members(buckets: seq<seq<Addr>>): set<Addr> {
    set b, a | 0 <= b < |buckets| && a in buckets[b] :: a
  }

  ghost predicate InRightBucket(heap: map<Addr, Node>, b: nat, a: Addr) {
    a in heap && BucketOf(heap[a].key) == b
  }

  ghost predicate TableOk(s: State) {
    && |s.buckets| == BUCKETS
    && (forall b, a :: 0 <= b < BUCKETS && a in s.buckets[b] ==> InRightBucket(s.heap, b, a))
    && (forall b :: 0 <= b < BUCKETS ==> NoDup(s.buckets[b]))
    && s.liveNodes == TotalLen(s.buckets)
  }

  lemma {:induction false} FindInIsFirst(bucket: seq<Addr>, heap: map<Addr, Node>, key: Key)
    ensures FindIn(bucket, heap, key).Some? ==>
              var a := FindIn(bucket, heap, key).value; a in bucket && a in heap && heap[a].key == key
    ensures FindIn(bucket, heap, key).None? ==> forall a :: a in bucket && a in heap ==> heap[a].key != key
  {
    if bucket != [] {
      FindInIsFirst(bucket[1..], heap, key);
      assert bucket == [bucket[0]] + bucket[1..];
    }
  }

  /** The walk of one bucket decides membership of the whole table. */
  lemma FindDecides(s: State, key: Key)
    requires TableOk(s)
    ensures var found := FindIn(s.buckets[BucketOf(key)], s.heap, key);
            if found.Some? then
              found.value in Members(s.buckets) && found.value in s.heap && s.heap[found.value].key == key
            else
              forall a :: a in Members(s.buckets) && a in s.heap ==> s.heap[a].key != key
    ensures forall a :: a in s.buckets[BucketOf(key)] ==> a in s.heap
  {
    FindInIsFirst(s.buckets[BucketOf(key)], s.heap, key);
    assert forall a :: a in s.buckets[BucketOf(key)] ==> InRightBucket(s.heap, BucketOf(key), a);
  }

  lemma {:induction false} RemovedIsDeletion(bucket: seq<Addr>, a: Addr)
    requires NoDup(bucket) && a in bucket
    ensures |Removed(bucket, a)| == |bucket| - 1
    ensures forall x :: x in Removed(bucket, a) <==> x in bucket && x != a
    ensures NoDup(Removed(bucket, a))
  {
    assert bucket == [bucket[0]] + bucket[1..];
    if bucket[0] != a {
      RemovedIsDeletion(bucket[1..], a);
      var rest := Removed(bucket[1..], a);
      assert forall i :: 0 <= i < |rest| ==> rest[i] in rest && rest[i] in bucket[1..];
      assert bucket[0] !in rest;
    }
  }

  lemma {:induction false} TotalLenUpdate(buckets: seq<seq<Addr>>, b: nat, bucket: seq<Addr>)
    requires b < |buckets|
    ensures TotalLen(buckets[b := bucket]) == TotalLen(buckets) - |buckets[b]| + |bucket|
  {
    if b == 0 {
      assert buckets[b := bucket][1..] == buckets[1..];
    } else {
      TotalLenUpdate(buckets[1..], b - 1, bucket);
      assert buckets[b := bucket][1..] == buckets[1..][b - 1 := bucket];
    }
  }

  lemma {:induction false} TotalLenEmpty(n: nat)
    ensures TotalLen(seq(n, _ => [])) == 0
  {
    if n > 0 {
      var e: seq<seq<Addr>> := seq(n, _ => []);
      assert e[1..] == seq(n - 1, _ => []);
      TotalLenEmpty(n - 1);
    }
  }

  /** The live counter counts the table: no node is in two places. */
  lemma {:induction false} LiveIsTableSize(buckets: seq<seq<Addr>>)
    requires forall b :: 0 <= b < |buckets| ==> NoDup(buckets[b])
    requires forall b, b', a :: 0 <= b < |buckets| && 0 <= b' < |buckets| && a in buckets[b] && a in buckets[b'] ==>
               b == b'
    ensures TotalLen(buckets) == |Members(buckets)|
  {
    if buckets == [] {
      assert Members(buckets) == {};
    } else {
      var head := set a | a in buckets[0];
      var tail := Members(buckets[1..]);
      assert forall b :: 0 <= b < |buckets[1..]| ==> buckets[1..][b] == buckets[b + 1];
      LiveIsTableSize(buckets[1..]);
      NoDupSize(buckets[0]);
      assert Members(buckets) == head + tail by {
        forall a | a in Members(buckets) ensures a in head + tail {
          var b :| 0 <= b < |buckets| && a in buckets[b];
          if b > 0 { assert a in buckets[1..][b - 1]; }
        }
        forall a | a in tail ensures a in Members(buckets) {
          var b :| 0 <= b < |buckets[1..]| && a in buckets[1..][b];
          assert a in buckets[b + 1];
        }
      }
      assert head !! tail by {
        forall a | a in tail ensures a !in head {
          var b :| 0 <= b < |buckets[1..]| && a in buckets[1..][b];
          assert a in buckets[b + 1];
        }
      }
    }
  }

  lemma {:induction false} NoDupSize(bucket: seq<Addr>)
    requires NoDup(bucket)
    ensures |set a | a in bucket| == |bucket|
  {
    if bucket == [] {
      assert (set a | a in bucket) == {};
    } else {
      NoDupSize(bucket[1..]);
      assert (set a | a in bucket) == {bucket[0]} + (set a | a in bucket[1..]);
    }
  }

  /** Changing the record of a node without changing its key keeps the table. */
  lemma SetNodeKeepsTable(s: State, a: Addr, n: Node)
    requires TableOk(s) && a in s.heap && n.key == s.heap[a].key
    ensures TableOk(SetNode(s, a, n)) && SetNode(s, a, n).faulted == s.faulted
  {
    var s' := SetNode(s, a, n);
    forall b, x | 0 <= b < BUCKETS && x in s'.buckets[b] ensures InRightBucket(s'.heap, b, x) {
      assert InRightBucket(s.heap, b, x);
    }
  }

  /** A spare can be overwritten, freed or allocated without the table noticing. */
  lemma SpareKeepsTable(s: State, s': State, a: Addr)
    requires TableOk(s) && a !in Members(s.buckets)
    requires s'.buckets == s.buckets && s'.liveNodes == s.liveNodes
    requires forall x :: x != a && x in s.heap ==> x in s'.heap && s'.heap[x] == s.heap[x]
    ensures TableOk(s')
  {
    forall b, x | 0 <= b < BUCKETS && x in s'.buckets[b] ensures InRightBucket(s'.heap, b, x) {
      assert InRightBucket(s.heap, b, x) && x in Members(s.buckets);
    }
  }

  lemma FreeNodeKeepsTable(s: State, a: Addr)
    requires TableOk(s) && a in Members(s.buckets)
    ensures TableOk(FreeNode(s, a)) && FreeNode(s, a).faulted == s.faulted
    ensures FreeNode(s, a).heap == s.heap - {a}
    ensures Members(FreeNode(s, a).buckets) == Members(s.buckets) - {a}
  {
    var b0 :| 0 <= b0 < BUCKETS && a in s.buckets[b0];
    assert InRightBucket(s.heap, b0, a);
    var s' := FreeNode(s, a);
    RemovedIsDeletion(s.buckets[b0], a);
    TotalLenUpdate(s.buckets, b0, Removed(s.buckets[b0], a));
    forall b | 0 <= b < BUCKETS && a in s.buckets[b] ensures b == b0 { assert InRightBucket(s.heap, b, a); }
    assert forall b, x :: 0 <= b < BUCKETS ==> (x in s'.buckets[b] <==> x in s.buckets[b] && x != a);
    forall b, x | 0 <= b < BUCKETS && x in s'.buckets[b] ensures InRightBucket(s'.heap, b, x) {
      assert InRightBucket(s.heap, b, x);
    }
    assert Members(s'.buckets) == Members(s.buckets) - {a};
  }

  lemma InsertKeepsTable(s: State, c: Call, a: Addr)
    requires TableOk(s) && c in s.calls && a in s.heap && a !in Members(s.buckets)
    ensures TableOk(Insert(s, c, a)) && Insert(s, c, a).faulted == s.faulted
    ensures Members(Insert(s, c, a).buckets) == Members(s.buckets) + {a}
  {
    var s' := Insert(s, c, a);
    var b0 := BucketOf(s.calls[c].key);
    TotalLenUpdate(s.buckets, b0, [a] + s.buckets[b0]);
    assert a in s'.buckets[b0] && a !in s.buckets[b0];
    forall b, x | 0 <= b < BUCKETS && x in s'.buckets[b] ensures InRightBucket(s'.heap, b, x) {
      if x != a { assert InRightBucket(s.heap, b, x); }
    }
    forall x ensures x in Members(s'.buckets) <==> x in Members(s.buckets) + {a} {
      if x in Members(s.buckets) {
        var b :| 0 <= b < BUCKETS && x in s.buckets[b];
        assert x in s'.buckets[b];
      }
    }
  }
}
