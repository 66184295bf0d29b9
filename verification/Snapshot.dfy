/**
 A built snapshot (kext/sysfs_iokit.cpp:463-701) and the queries on it (:925-1148). Every
 query is proved to answer from the plain meaning of the recorded table.
 */
module Snapshot {
  import opened Wrappers
  import opened DevicePath
  import opened Names
  import opened Registry
  import opened SnapshotChildren
  import opened SnapshotTree
  import SI = SnapshotIndex

  /** Every slot starts out empty. */
  method EmptyIndex(size: nat) returns (slots: array<SI.Slot>)
    ensures fresh(slots) && slots.Length == size
    ensures forall j :: 0 <= j < size ==> SI.Empty(slots[j])
  {
    slots := new SI.Slot[size](_ => SI.Slot(0, 0));
    for i := 0 to size
      invariant forall j :: 0 <= j < i ==> SI.Empty(slots[j])
    {
      slots[i] := SI.Slot(slots[i].regid, SI.NONE);
    }
  }

  /** Lines 613-617 and 656-658: without scratch memory the tree is published empty. */
  method DropChildren(table: array<SnapNode>, count: nat, ghost base: seq<SnapNode>)
    requires count == |base| <= table.Length && SameButLinks(table[..|base|], base)
    modifies table
    ensures SameButLinks(table[..|base|], base)
    ensures Childless(table[..|base|])
  {
    for j := 0 to count
      invariant SameButLinks(table[..|base|], base)
      invariant forall i :: 0 <= i < j ==> table[i].numChildren == 0
    {
      ghost var before := table[..|base|];
      table[j] := table[j].(numChildren := 0);
      assert table[..|base|] == before[j := before[j].(numChildren := 0)];
    }
  }

  /** What sysfs_iokit_parent() reports: the parent's id as it was recorded, even if the parent was not. */
  ghost function ParentRegid(base: seq<SnapNode>, regid: nat): Option<nat> {
    IndexMapIds(base, regid);
    if regid == 0 then Some(0)
    else if regid in IndexMap(base) then Some(base[IndexMap(base)[regid]].parentRegid)
    else None
  }

  /** The tables of a finished snapshot, and whether scratch memory for the child lists was missing. */
  datatype Value = Value(nodes: seq<SnapNode>, childIdx: seq<nat>, slots: seq<SI.Slot>, base: seq<SnapNode>,
                         degraded: bool)

  /** They agree with the recorded table `base`: index, child lists, ordinals. */
  ghost predicate Agrees(v: Value) {
    && |v.base| <= MAX_NODES && ShortNames(v.base)
    && IndexedTables(Tables(v.nodes, v.slots, v.base))
    && if v.degraded then Childless(v.nodes)
       else Shaped(v.nodes, v.childIdx, v.base) && OrdinalsStored(v.nodes, v.base)
  }

  ghost predicate Childless(nodes: seq<SnapNode>) {
    forall i :: 0 <= i < |nodes| ==> nodes[i].numChildren == 0
  }

  ghost predicate OrdinalsStored(nodes: seq<SnapNode>, base: seq<SnapNode>)
    requires |nodes| == |base|
  {
    forall x: nat {:trigger Ordinal(base, x)} :: 1 <= x < |base| ==> nodes[x].dupOrdinal == Ordinal(base, x)
  }

  type Built = v: Value | v.base == [] || Agrees(v) ghost witness Value([], [], [], [], false)

  class Snapshot {
    const nodes: array<SnapNode>
    const childIdx: array<nat>
    const hash: array<SI.Slot>
    const nodeCount: nat
    ghost const value: Built

    ghost predicate Valid()
      reads nodes, childIdx, hash
    {
      1 <= nodeCount == |value.base| <= nodes.Length && nodes[..nodeCount] == value.nodes &&
      childIdx[..] == value.childIdx && hash[..] == value.slots
    }

    constructor (nodes: array<SnapNode>, childIdx: array<nat>, hash: array<SI.Slot>, nodeCount: nat, ghost value: Built)
      requires 1 <= nodeCount == |value.base| <= nodes.Length && nodes[..nodeCount] == value.nodes
      requires childIdx[..] == value.childIdx && hash[..] == value.slots
      ensures Valid() && this.value == value
      ensures this.nodes == nodes && this.childIdx == childIdx && this.hash == hash
    {
      this.nodes, this.childIdx, this.hash, this.nodeCount := nodes, childIdx, hash, nodeCount;
      this.value := value;
    }

    /** sysfs_hash_find() on this snapshot. */
    method IndexOf(regid: nat) returns (i: nat)
      requires Valid()
      ensures i == if regid in IndexMap(value.base) then IndexMap(value.base)[regid] else SI.NONE
      ensures i != SI.NONE <==> HasId(value.base, regid)
      ensures i != SI.NONE ==> i < |value.base| && value.base[i].regid == regid && nodes[i] == value.nodes[i]
    {
      IndexMapIds(value.base, regid);
      i := SI.Find(hash, regid, IndexMap(value.base));
    }

    /** sysfs_iokit_parent(): the recorded parent id, captured or not. */
    method Parent(regid: nat) returns (parent: Option<nat>)
      requires Valid()
      ensures parent == ParentRegid(value.base, regid)
    {
      if regid == 0 {
        return Some(0);
      }
      IndexMapIds(value.base, regid);
      var i := IndexOf(regid);
      if i == SI.NONE {
        return None;
      }
      return Some(nodes[i].parentRegid);
    }

    /** Lines 819-838: the display name, cut to the caller's buffer, and the id of the index-th child of node pidx. */
    method ChildDisplay(pidx: nat, index: nat, buflen: nat) returns (child: Option<(string, nat)>)
      requires Valid() && pidx < nodeCount && buflen > 0
      ensures child == ListedChild(value, pidx, index, buflen)
    {
      ghost var base := value.base;
      assert nodes[pidx] == value.nodes[pidx];
      if !value.degraded { RangeInTable(nodes, childIdx, pidx, base, Children(base, pidx), SiblingNames(base, pidx)); }
      if index >= nodes[pidx].numChildren {
        return None;
      }
      var ci := ChildOf(nodes, childIdx, pidx, index, base);
      ChildrenInside(Parents(base), pidx, |base|);
      assert nodes[ci] == value.nodes[ci];
      return Some((Strlcpy(Display(nodes[ci].name, nodes[ci].dupOrdinal), buflen), nodes[ci].regid));
    }

    /** sysfs_iokit_child_at(). */
    method ChildAt(regid: nat, index: nat, buflen: nat) returns (child: Option<(string, nat)>)
      requires Valid()
      ensures child == ListedUnder(value, regid, index, buflen)
    {
      if buflen == 0 {
        return None;
      }
      IndexMapIds(value.base, regid);
      var pidx := IndexOf(regid);
      if pidx == SI.NONE {
        return None;
      }
      child := ChildDisplay(pidx, index, buflen);
    }

    /** sysfs_iokit_child_named(): the first child listed under the name. */
    method ChildNamed(regid: nat, name: string) returns (child: Option<nat>)
      requires Valid()
      ensures child == NamedUnder(value, regid, name)
    {
      IndexMapIds(value.base, regid);
      var pidx := IndexOf(regid);
      if pidx == SI.NONE {
        return None;
      }
      ghost var kids := ChildList(value, pidx);
      assert nodes[pidx] == value.nodes[pidx];
      if !value.degraded {
        RangeInTable(nodes, childIdx, pidx, value.base, Children(value.base, pidx), SiblingNames(value.base, pidx));
      }
      var n := nodes[pidx].numChildren;
      var i := 0;
      while i < n
        invariant 0 <= i <= n == |kids|
        invariant FirstNamed(value.base, kids, name) == FirstNamed(value.base, kids[i..], name)
      {
        var shown := ChildDisplay(pidx, i, NAME_MAX_STORED + 16);
        FullDisplay(value, pidx, i);
        if shown.None? {
          break;
        }
        if shown.value.0 == name {
          return Some(shown.value.1);
        }
        assert kids[i..][1..] == kids[i + 1..];
        i := i + 1;
      }
      return None;
    }

    /** sysfs_iokit_class_child_at(). */
    method ClassChildAt(classId: nat, wholeOnly: bool, index: nat, buflen: nat) returns (member: Option<(string, nat)>)
      requires Valid()
      ensures member == ClassMember(value.base, classId, wholeOnly, index, buflen)
    {
      member := NthMember(nodes, nodeCount, classId, wholeOnly, index, buflen, value.base);
    }

    /** sysfs_iokit_class_child_named(): the first member of that device name. */
    method ClassChildNamed(classId: nat, wholeOnly: bool, name: string) returns (regid: Option<nat>)
      requires Valid()
      ensures regid == ClassNamed(value.base, classId, wholeOnly, name)
    {
      regid := MemberNamed(nodes, nodeCount, classId, wholeOnly, name, value.base);
    }
  }

  /** Lines 1025-1047: a scan of the table, counting members. */
  method NthMember(table: array<SnapNode>, count: nat, classId: nat, wholeOnly: bool, index: nat, buflen: nat,
                   ghost base: seq<SnapNode>)
    returns (member: Option<(string, nat)>)
    requires 1 <= count == |base| <= table.Length && SameButLinks(table[..count], base)
    ensures member == ClassMember(base, classId, wholeOnly, index, buflen)
  {
    if buflen == 0 {
      return None;
    }
    var seen := 0;
    for i := 1 to count
      invariant seen <= index && seen == |MembersBelow(base, classId, wholeOnly, i)|
    {
      assert table[i] == table[..count][i];
      if IsMember(table[i], classId, wholeOnly) {
        if seen == index {
          MembersPrefix(base, classId, wholeOnly, i + 1, count);
          assert MembersBelow(base, classId, wholeOnly, i + 1)[index] == i;
          return Some((Strlcpy(table[i].bsdName, buflen), table[i].regid));
        }
        seen := seen + 1;
      }
    }
    return None;
  }

  /** Lines 1063-1077: a scan of the table for a member's device name. */
  method MemberNamed(table: array<SnapNode>, count: nat, classId: nat, wholeOnly: bool, name: string,
                     ghost base: seq<SnapNode>)
    returns (regid: Option<nat>)
    requires 1 <= count == |base| <= table.Length && SameButLinks(table[..count], base)
    ensures regid == ClassNamed(base, classId, wholeOnly, name)
  {
    for i := 1 to count
      invariant FirstMemberNamed(base, classId, wholeOnly, name, i).None?
    {
      assert table[i] == table[..count][i];
      if IsMember(table[i], classId, wholeOnly) && table[i].bsdName == name {
        FirstMemberStays(base, classId, wholeOnly, name, i + 1, count);
        return Some(table[i].regid);
      }
    }
    return None;
  }

  // ---------- What the queries answer

  /** The children a snapshot lists: none if it was degraded. */
  ghost function ChildList(v: Built, pidx: nat): (kids: seq<nat>)
    ensures forall k :: 0 <= k < |kids| ==> 1 <= kids[k] < |v.base|
  {
    ChildrenInside(Parents(v.base), pidx, |v.base|);
    if v.degraded then [] else Children(v.base, pidx)
  }

  /** What listing says about the index-th child of a node. */
  ghost function ListedChild(v: Built, pidx: nat, index: nat, buflen: nat): Option<(string, nat)>
    requires buflen > 0
  {
    var kids := ChildList(v, pidx);
    if index >= |kids| then None
    else Some((Strlcpy(NodeDisplay(v.base, kids[index]), buflen), v.base[kids[index]].regid))
  }

  ghost function ListedUnder(v: Built, regid: nat, index: nat, buflen: nat): Option<(string, nat)> {
    if buflen == 0 || regid !in IndexMap(v.base) then None else ListedChild(v, IndexMap(v.base)[regid], index, buflen)
  }

  ghost function NamedUnder(v: Built, regid: nat, name: string): Option<nat> {
    if regid !in IndexMap(v.base) then None
    else
      var kids := ChildList(v, IndexMap(v.base)[regid]);
      FirstNamedIsNamed(v.base, kids, name);
      var child := FirstNamed(v.base, kids, name);
      if child.None? then None else Some(v.base[child.value].regid)
  }

  /** No display name is cut in either caller's buffer. */
  lemma FullDisplay(v: Built, pidx: nat, index: nat)
    requires v.base != [] && index < |ChildList(v, pidx)|
    ensures ListedChild(v, pidx, index, NAME_MAX_STORED + 16)
         == Some((NodeDisplay(v.base, ChildList(v, pidx)[index]), v.base[ChildList(v, pidx)[index]].regid))
    ensures ListedChild(v, pidx, index, 256) == ListedChild(v, pidx, index, NAME_MAX_STORED + 16)
  {
    var i := ChildList(v, pidx)[index];
    OrdinalSmall(v.base, i);
    DisplayFits(v.base[i].name, Ordinal(v.base, i));
  }

  ghost function ClassMember(base: seq<SnapNode>, classId: nat, wholeOnly: bool, index: nat,
                             buflen: nat): Option<(string, nat)> {
    var members := Members(base, classId, wholeOnly);
    if buflen == 0 || index >= |members| then None
    else Some((Strlcpy(base[members[index]].bsdName, buflen), base[members[index]].regid))
  }

  /** The first member among the nodes 1..n-1 with the given device name. */
  ghost function FirstMemberNamed(base: seq<SnapNode>, classId: nat, wholeOnly: bool, name: string,
                                  n: nat): (i: Option<nat>)
    requires n <= |base|
    ensures i.Some? ==> 1 <= i.value < n && IsMember(base[i.value], classId, wholeOnly) && base[i.value].bsdName == name
  {
    if n <= 1 then None
    else
      var before := FirstMemberNamed(base, classId, wholeOnly, name, n - 1);
      if before.Some? then before
      else if IsMember(base[n - 1], classId, wholeOnly) && base[n - 1].bsdName == name then Some(n - 1)
      else None
  }

  ghost function ClassNamed(base: seq<SnapNode>, classId: nat, wholeOnly: bool, name: string): Option<nat> {
    var i := FirstMemberNamed(base, classId, wholeOnly, name, |base|);
    if i.None? then None else Some(base[i.value].regid)
  }

  lemma {:induction false} FirstMemberStays(base: seq<SnapNode>, classId: nat, wholeOnly: bool, name: string, k: nat,
                                            n: nat)
    requires k <= n <= |base| && FirstMemberNamed(base, classId, wholeOnly, name, k).Some?
    ensures FirstMemberNamed(base, classId, wholeOnly, name, n) == FirstMemberNamed(base, classId, wholeOnly, name, k)
    decreases n
  {
    if k < n { FirstMemberStays(base, classId, wholeOnly, name, k, n - 1); }
  }

  lemma {:induction false} MembersPrefix(base: seq<SnapNode>, classId: nat, wholeOnly: bool, k: nat, n: nat)
    requires k <= n <= |base|
    ensures MembersBelow(base, classId, wholeOnly, k) <= MembersBelow(base, classId, wholeOnly, n)
    decreases n
  {
    if k < n { MembersPrefix(base, classId, wholeOnly, k, n - 1); }
  }
}
