/**
 What a snapshot means, with no hash table, no child arrays and no loops: the entries a
 registry walk yields, the ones that are recorded, and the tree they form.
 */
module Registry {
  import opened Wrappers

  /** SYSFS_IOKIT_MAXNODES, SYSFS_IOKIT_NAMEMAX and SYSFS_IOKIT_BSDNAMEMAX. */
  const MAX_NODES: nat := 16384
  const NAME_MAX_STORED: nat := 128
  const BSD_NAME_MAX: nat := 32

  /** SYSFS_CLASS_*. */
  const CLASS_NONE: nat := 0
  const CLASS_NET: nat := 1
  const CLASS_BLOCK: nat := 2
  const CLASS_TTY: nat := 3
  const CLASS_POWER: nat := 4

  /**
   One object the registry iterator yields. `parentRegid` is 0 for an entry below the
   registry root or without a parent; `kind` is the class metaCast() reports.
   */
  datatype Entry = Entry(
    regid: nat, parentRegid: nat, name: Option<string>,
    kind: nat, bsdName: Option<string>, whole: bool)

  /** `whole` is the SYSFS_CLASSF_WHOLE bit, the only class flag there is. */
  datatype SnapNode = SnapNode(
    regid: nat, parentRegid: nat, firstChild: nat, numChildren: nat, dupOrdinal: nat,
    classId: nat, whole: bool, bsdName: string, name: string)

  /** strlcpy() into a buffer of `size` bytes. */
  function Strlcpy(s: string, size: nat): (r: string)
    requires size > 0
    ensures |r| < size && r <= s && (|s| < size ==> r == s)
  {
    if |s| < size then s else s[..size - 1]
  }

  const ROOT := SnapNode(0, 0, 0, 0, 0, CLASS_NONE, false, "", "")

  /** Lines 543-588: what is stored for an entry. */
  function NodeOf(e: Entry): (node: SnapNode)
    ensures node.regid == e.regid && node.parentRegid == e.parentRegid && |node.name| < NAME_MAX_STORED
    ensures |node.bsdName| < BSD_NAME_MAX
  {
    var name := Strlcpy(if e.name.Some? then e.name.value else "unknown", NAME_MAX_STORED);
    var node := SnapNode(e.regid, e.parentRegid, 0, 0, 0, CLASS_NONE, false, "", name);
    if e.kind == CLASS_NONE then node
    else if e.bsdName.Some? then
      node.(bsdName := Strlcpy(e.bsdName.value, BSD_NAME_MAX), classId := e.kind,
            whole := e.kind == CLASS_BLOCK && e.whole)
    else if e.kind == CLASS_POWER then
      node.(bsdName := Strlcpy(name, BSD_NAME_MAX), classId := e.kind)
    else node
  }

  // ---------- Which entries are recorded

  /** The k-th entry of the walk has a usable id that has not been seen before. */
  ghost predicate IsFirst(walk: seq<Entry>, k: nat)
    requires k < |walk|
  {
    walk[k].regid != 0 && forall i :: 0 <= i < k ==> walk[i].regid != walk[k].regid
  }

  /** The root, then the first occurrences among the first k entries of the walk, in walk order. */
  ghost function TableAfter(walk: seq<Entry>, k: nat): (nodes: seq<SnapNode>)
    requires k <= |walk|
    ensures |nodes| > 0 && nodes[0] == ROOT
  {
    if k == 0 then [ROOT]
    else TableAfter(walk, k - 1) + (if IsFirst(walk, k - 1) then [NodeOf(walk[k - 1])] else [])
  }

  /** Everything a walk would record in an unbounded table. */
  ghost function AllNodes(walk: seq<Entry>): seq<SnapNode> {
    TableAfter(walk, |walk|)
  }

  /** What a table of `cap` nodes records. */
  ghost function Recorded(walk: seq<Entry>, cap: nat): seq<SnapNode> {
    if |AllNodes(walk)| <= cap then AllNodes(walk) else AllNodes(walk)[..cap]
  }

  ghost predicate HasId(nodes: seq<SnapNode>, regid: nat) {
    exists i :: 0 <= i < |nodes| && nodes[i].regid == regid
  }

  /** The ids of a node table are distinct, the root's first. */
  ghost predicate DistinctIds(nodes: seq<SnapNode>) {
    |nodes| > 0 && nodes[0].regid == 0 &&
    forall i, j :: 0 <= i < j < |nodes| ==> nodes[i].regid != nodes[j].regid
  }

  lemma {:induction false} TablePrefix(walk: seq<Entry>, k: nat, n: nat)
    requires k <= n <= |walk|
    ensures TableAfter(walk, k) <= TableAfter(walk, n)
    decreases n
  {
    if k < n { TablePrefix(walk, k, n - 1); }
  }

  lemma HasIdAppend(nodes: seq<SnapNode>, node: SnapNode, r: nat)
    ensures HasId(nodes + [node], r) <==> HasId(nodes, r) || node.regid == r
  {
    if HasId(nodes, r) {
      var i :| 0 <= i < |nodes| && nodes[i].regid == r;
      assert (nodes + [node])[i].regid == r;
    }
    assert (nodes + [node])[|nodes|] == node;
  }

  ghost predicate Met(walk: seq<Entry>, k: nat, r: nat)
    requires k <= |walk|
  {
    exists i :: 0 <= i < k && walk[i].regid == r
  }

  /** The table carries exactly the ids the walk has met, and the root's. */
  lemma {:induction false} TableIds(walk: seq<Entry>, k: nat, r: nat)
    requires k <= |walk|
    ensures HasId(TableAfter(walk, k), r) <==> r == 0 || Met(walk, k, r)
  {
    var table := TableAfter(walk, k);
    if k == 0 {
      assert table == [ROOT] && table[0].regid == 0;
      assert forall i :: 0 <= i < |table| ==> table[i] == ROOT;
    } else {
      TableIds(walk, k - 1, r);
      assert !IsFirst(walk, k - 1) ==> table == TableAfter(walk, k - 1);
      assert Met(walk, k, r) <==> Met(walk, k - 1, r) || walk[k - 1].regid == r;
      assert IsFirst(walk, k - 1) <==> walk[k - 1].regid != 0 && !Met(walk, k - 1, walk[k - 1].regid);
      HasIdAppend(TableAfter(walk, k - 1), NodeOf(walk[k - 1]), r);
    }
  }

  lemma {:induction false} TableDistinct(walk: seq<Entry>, k: nat)
    requires k <= |walk|
    ensures DistinctIds(TableAfter(walk, k))
  {
    if k > 0 {
      TableDistinct(walk, k - 1);
      if IsFirst(walk, k - 1) {
        TableIds(walk, k - 1, walk[k - 1].regid);
        assert !HasId(TableAfter(walk, k - 1), walk[k - 1].regid);
      }
    }
  }

  lemma RecordedDistinct(walk: seq<Entry>, cap: nat)
    requires cap > 0
    ensures DistinctIds(Recorded(walk, cap))
  {
    TableDistinct(walk, |walk|);
  }

  ghost predicate ShortNames(nodes: seq<SnapNode>) {
    forall i :: 0 <= i < |nodes| ==> |nodes[i].name| < NAME_MAX_STORED && |nodes[i].bsdName| < BSD_NAME_MAX
  }

  lemma {:induction false} TableShortNames(walk: seq<Entry>, k: nat)
    requires k <= |walk|
    ensures ShortNames(TableAfter(walk, k))
  {
    if k > 0 { TableShortNames(walk, k - 1); }
  }

  lemma RecordedShortNames(walk: seq<Entry>, cap: nat)
    ensures ShortNames(Recorded(walk, cap))
  {
    TableShortNames(walk, |walk|);
  }

  // ---------- The index

  /** From ids to positions in a node table. */
  ghost function IndexMap(nodes: seq<SnapNode>): map<nat, nat> {
    if nodes == [] then map[] else IndexMap(nodes[..|nodes| - 1])[nodes[|nodes| - 1].regid := |nodes| - 1]
  }

  lemma IndexMapAppend(nodes: seq<SnapNode>, node: SnapNode)
    ensures IndexMap(nodes + [node]) == IndexMap(nodes)[node.regid := |nodes|]
  {
    assert (nodes + [node])[..|nodes|] == nodes;
  }

  lemma {:induction false} IndexMapIds(nodes: seq<SnapNode>, r: nat)
    ensures r in IndexMap(nodes) <==> HasId(nodes, r)
    ensures r in IndexMap(nodes) ==> IndexMap(nodes)[r] < |nodes| && nodes[IndexMap(nodes)[r]].regid == r
  {
    if nodes != [] {
      var last := |nodes| - 1;
      IndexMapIds(nodes[..last], r);
      HasIdAppend(nodes[..last], nodes[last], r);
      assert nodes[..last] + [nodes[last]] == nodes;
    }
  }

  /** With distinct ids the map and the table are inverse to each other. */
  lemma IndexMapInverts(nodes: seq<SnapNode>, i: nat)
    requires DistinctIds(nodes) && i < |nodes|
    ensures nodes[i].regid in IndexMap(nodes) && IndexMap(nodes)[nodes[i].regid] == i
  {
    IndexMapIds(nodes, nodes[i].regid);
  }

  // ---------- The tree

  /** A node hangs under its recorded parent; an orphan, whose parent was not recorded, under the root. */
  ghost function ParentIndex(nodes: seq<SnapNode>, i: nat): nat
    requires i < |nodes|
  {
    var r := nodes[i].parentRegid;
    if r in IndexMap(nodes) then IndexMap(nodes)[r] else 0
  }

  ghost function ParentsBelow(nodes: seq<SnapNode>, n: nat): (par: seq<nat>)
    requires n <= |nodes|
    ensures |par| == n
  {
    if n == 0 then [] else ParentsBelow(nodes, n - 1) + [ParentIndex(nodes, n - 1)]
  }

  ghost function Parents(nodes: seq<SnapNode>): (par: seq<nat>)
    ensures |par| == |nodes|
  {
    ParentsBelow(nodes, |nodes|)
  }

  lemma {:induction false} ParentsAt(nodes: seq<SnapNode>, n: nat, i: nat)
    requires i < n <= |nodes|
    ensures ParentsBelow(nodes, n)[i] == ParentIndex(nodes, i)
  {
    if i < n - 1 { ParentsAt(nodes, n - 1, i); }
  }

  /** The nodes among 1..n-1 whose parent is p, in table order. */
  ghost function ChildrenBelow(par: seq<nat>, p: nat, n: nat): seq<nat>
    requires n <= |par|
  {
    if n <= 1 then []
    else ChildrenBelow(par, p, n - 1) + (if par[n - 1] == p then [n - 1] else [])
  }

  ghost function Children(nodes: seq<SnapNode>, p: nat): seq<nat> {
    ChildrenBelow(Parents(nodes), p, |nodes|)
  }

  lemma {:induction false} ChildrenBelowMembers(par: seq<nat>, p: nat, n: nat)
    requires n <= |par|
    ensures forall i :: i in ChildrenBelow(par, p, n) <==> 1 <= i < n && par[i] == p
  {
    if n > 1 { ChildrenBelowMembers(par, p, n - 1); }
  }

  lemma {:induction false} ChildrenBelowOrder(par: seq<nat>, p: nat, n: nat, j: nat, k: nat)
    requires n <= |par| && j < k < |ChildrenBelow(par, p, n)|
    ensures ChildrenBelow(par, p, n)[j] < ChildrenBelow(par, p, n)[k]
  {
    var before := ChildrenBelow(par, p, n - 1);
    if k < |before| { ChildrenBelowOrder(par, p, n - 1, j, k); } else {
      ChildrenBelowMembers(par, p, n - 1);
      assert before[j] in before;
    }
  }

  lemma ChildrenBelowIs(par: seq<nat>, p: nat, n: nat)
    requires n <= |par|
    ensures forall i :: i in ChildrenBelow(par, p, n) <==> 1 <= i < n && par[i] == p
    ensures forall j, k :: 0 <= j < k < |ChildrenBelow(par, p, n)| ==>
              ChildrenBelow(par, p, n)[j] < ChildrenBelow(par, p, n)[k]
  {
    ChildrenBelowMembers(par, p, n);
    forall j, k | 0 <= j < k < |ChildrenBelow(par, p, n)|
      ensures ChildrenBelow(par, p, n)[j] < ChildrenBelow(par, p, n)[k]
    {
      ChildrenBelowOrder(par, p, n, j, k);
    }
  }

  /** A node is somewhere in its parent's list. */
  lemma {:induction false} ChildRank(par: seq<nat>, p: nat, n: nat, i: nat) returns (k: nat)
    requires 1 <= i < n <= |par| && par[i] == p
    ensures k < |ChildrenBelow(par, p, n)| && ChildrenBelow(par, p, n)[k] == i
    decreases n
  {
    if i == n - 1 { k := |ChildrenBelow(par, p, n)| - 1; } else { k := ChildRank(par, p, n - 1, i); }
  }

  lemma ParentInside(nodes: seq<SnapNode>, i: nat)
    requires i < |nodes|
    ensures Parents(nodes)[i] < |nodes|
  {
    ParentsAt(nodes, |nodes|, i);
    IndexMapIds(nodes, nodes[i].parentRegid);
  }

  lemma ParentsInside(nodes: seq<SnapNode>)
    requires |nodes| > 0
    ensures forall i :: 0 <= i < |nodes| ==> Parents(nodes)[i] < |nodes|
  {
    forall i | 0 <= i < |nodes| ensures Parents(nodes)[i] < |nodes| {
      ParentsAt(nodes, |nodes|, i);
      IndexMapIds(nodes, nodes[i].parentRegid);
    }
  }

  // ---------- Device classes

  /** The entry belongs to the class, and to its whole disks if only those are wanted. */
  predicate IsMember(node: SnapNode, classId: nat, wholeOnly: bool) {
    node.classId == classId && (wholeOnly ==> node.whole)
  }

  /** The members of a class among the nodes 1..n-1, in table order. */
  ghost function MembersBelow(nodes: seq<SnapNode>, classId: nat, wholeOnly: bool, n: nat): (list: seq<nat>)
    requires n <= |nodes|
    ensures forall k :: 0 <= k < |list| ==> 1 <= list[k] < n && IsMember(nodes[list[k]], classId, wholeOnly)
  {
    if n <= 1 then []
    else
      MembersBelow(nodes, classId, wholeOnly, n - 1) +
      (if IsMember(nodes[n - 1], classId, wholeOnly) then [n - 1] else [])
  }

  ghost function Members(nodes: seq<SnapNode>, classId: nat, wholeOnly: bool): (list: seq<nat>)
    ensures forall k :: 0 <= k < |list| ==> 1 <= list[k] < |nodes| && IsMember(nodes[list[k]], classId, wholeOnly)
  {
    MembersBelow(nodes, classId, wholeOnly, |nodes|)
  }

  // ---------- Sibling names

  ghost function NamesOf(nodes: seq<SnapNode>, list: seq<nat>): (names: seq<string>)
    requires forall k :: 0 <= k < |list| ==> list[k] < |nodes|
    ensures |names| == |list|
  {
    if list == [] then [] else NamesOf(nodes, list[..|list| - 1]) + [nodes[list[|list| - 1]].name]
  }

  lemma {:induction false} NamesOfAt(nodes: seq<SnapNode>, list: seq<nat>, k: nat)
    requires (forall k :: 0 <= k < |list| ==> list[k] < |nodes|) && k < |list|
    ensures NamesOf(nodes, list)[k] == nodes[list[k]].name
  {
    if k < |list| - 1 { NamesOfAt(nodes, list[..|list| - 1], k); }
  }

  lemma {:induction false} NamesOfPrefix(nodes: seq<SnapNode>, list: seq<nat>, k: nat)
    requires (forall k :: 0 <= k < |list| ==> list[k] < |nodes|) && k <= |list|
    ensures NamesOf(nodes, list[..k]) == NamesOf(nodes, list)[..k]
  {
    if k < |list| {
      NamesOfPrefix(nodes, list[..|list| - 1], k);
      assert list[..|list| - 1][..k] == list[..k];
    } else {
      assert list[..k] == list;
    }
  }

  /** How many of the names equal a given one. */
  ghost function CountEqual(names: seq<string>, name: string): nat {
    if names == [] then 0
    else CountEqual(names[..|names| - 1], name) + if names[|names| - 1] == name then 1 else 0
  }

  lemma {:induction false} ChildrenInside(par: seq<nat>, p: nat, n: nat)
    requires n <= |par|
    ensures forall k :: 0 <= k < |ChildrenBelow(par, p, n)| ==>
              1 <= ChildrenBelow(par, p, n)[k] < n && par[ChildrenBelow(par, p, n)[k]] == p
  {
    if n > 1 { ChildrenInside(par, p, n - 1); }
  }

  /** The stored names of the children of p, in table order. */
  ghost function SiblingNames(nodes: seq<SnapNode>, p: nat): (names: seq<string>)
    ensures |names| == |Children(nodes, p)|
  {
    ChildrenInside(Parents(nodes), p, |nodes|);
    NamesOf(nodes, Children(nodes, p))
  }

  /** How many earlier siblings share the name of node i. */
  ghost function Ordinal(nodes: seq<SnapNode>, i: nat): nat
    requires i < |nodes|
  {
    ChildrenInside(Parents(nodes), Parents(nodes)[i], i);
    CountEqual(NamesOf(nodes, ChildrenBelow(Parents(nodes), Parents(nodes)[i], i)), nodes[i].name)
  }

  /** The children of p before the k-th one are the children of p below it. */
  lemma {:induction false} ChildrenPrefix(par: seq<nat>, p: nat, n: nat, k: nat)
    requires n <= |par| && k < |ChildrenBelow(par, p, n)|
    ensures ChildrenBelow(par, p, n)[k] < n
    ensures ChildrenBelow(par, p, n)[..k] == ChildrenBelow(par, p, ChildrenBelow(par, p, n)[k])
  {
    var before := ChildrenBelow(par, p, n - 1);
    if k < |before| {
      ChildrenPrefix(par, p, n - 1, k);
      assert ChildrenBelow(par, p, n)[..k] == before[..k];
    } else {
      assert ChildrenBelow(par, p, n)[..k] == before;
    }
  }

  /** The k-th sibling's ordinal counts the equal names in the list before it. */
  lemma OrdinalInList(nodes: seq<SnapNode>, p: nat, k: nat)
    requires k < |Children(nodes, p)|
    ensures Children(nodes, p)[k] < |nodes|
    ensures Ordinal(nodes, Children(nodes, p)[k]) == CountEqual(SiblingNames(nodes, p)[..k], SiblingNames(nodes, p)[k])
  {
    var par, kids := Parents(nodes), Children(nodes, p);
    ChildrenInside(par, p, |nodes|);
    ChildrenPrefix(par, p, |nodes|, k);
    ChildrenInside(par, p, kids[k]);
    NamesOfPrefix(nodes, kids, k);
    NamesOfAt(nodes, kids, k);
  }

  lemma {:induction false} CountEqualAtMost(names: seq<string>, name: string)
    ensures CountEqual(names, name) <= |names|
  {
    if names != [] { CountEqualAtMost(names[..|names| - 1], name); }
  }

  lemma {:induction false} FewChildren(par: seq<nat>, p: nat, n: nat)
    requires n <= |par|
    ensures |ChildrenBelow(par, p, n)| <= n
  {
    if n > 1 { FewChildren(par, p, n - 1); }
  }

  lemma OrdinalSmall(nodes: seq<SnapNode>, i: nat)
    requires i < |nodes|
    ensures Ordinal(nodes, i) <= i
  {
    var par := Parents(nodes);
    ChildrenInside(par, par[i], i);
    FewChildren(par, par[i], i);
    CountEqualAtMost(NamesOf(nodes, ChildrenBelow(par, par[i], i)), nodes[i].name);
  }
}
