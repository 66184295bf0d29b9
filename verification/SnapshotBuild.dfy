/**
 Building a snapshot, first part (kext/sysfs_iokit.cpp:516-594): the registry walk into the
 node table and its index, in place on arrays.
 */
module SnapshotBuild {
  import opened Registry
  import SI = SnapshotIndex

  // ---------- The walk

  /** One step of the walk extends the recorded table exactly as it extends the first occurrences. */
  lemma OneMore(walk: seq<Entry>, k: nat, nodes: seq<SnapNode>, nodes': seq<SnapNode>)
    requires k < |walk| && nodes == TableAfter(walk, k)
    requires nodes' == if walk[k].regid == 0 || walk[k].regid in IndexMap(nodes) then nodes
                       else nodes + [NodeOf(walk[k])]
    ensures nodes' == TableAfter(walk, k + 1)
  {
    IndexMapIds(nodes, walk[k].regid);
    TableIds(walk, k, walk[k].regid);
  }

  lemma CutOff(walk: seq<Entry>, k: nat, cap: nat)
    requires k <= |walk| && 1 <= cap
    requires |TableAfter(walk, k)| == cap || (k == |walk| && |TableAfter(walk, k)| <= cap)
    ensures TableAfter(walk, k) == Recorded(walk, cap)
  {
    TablePrefix(walk, k, |walk|);
  }

  /** The node table holds `nodes`, and the slots index it. */
  ghost predicate Holds(table: array<SnapNode>, slots: array<SI.Slot>, nodes: seq<SnapNode>)
    reads table, slots
  {
    |nodes| <= table.Length && table[..|nodes|] == nodes &&
    |IndexMap(nodes)| == |nodes| && SI.Represents(slots[..], IndexMap(nodes))
  }

  /** The sizes a build chooses: at most MAX_NODES nodes, and twice as many slots as nodes. */
  ghost predicate Sized(table: array<SnapNode>, slots: array<SI.Slot>) {
    1 <= table.Length <= MAX_NODES && 2 * table.Length <= slots.Length
  }

  /** At most half the slots are ever taken, so probing always meets an empty one. */
  lemma LoadFactor(table: array<SnapNode>, slots: array<SI.Slot>, nodes: seq<SnapNode>)
    requires Sized(table, slots) && Holds(table, slots, nodes)
    ensures 2 * SI.Occupied(slots[..]) <= slots.Length
    ensures exists j :: 0 <= j < slots.Length && SI.Empty(slots[j])
  {
    SI.OccupiedIsMapSize(slots[..], IndexMap(nodes));
    if forall j :: 0 <= j < slots.Length ==> !SI.Empty(slots[..][j]) {
      SI.OccupiedIsFull(slots[..]);
    }
  }

  /** Lines 529-590: record one entry unless its id is reserved or already there. */
  method RecordEntry(e: Entry, table: array<SnapNode>, slots: array<SI.Slot>, count: nat, ghost nodes: seq<SnapNode>)
    returns (count': nat, ghost nodes': seq<SnapNode>)
    requires Sized(table, slots) && Holds(table, slots, nodes) && count == |nodes| < table.Length
    modifies table, slots
    ensures Holds(table, slots, nodes') && count' == |nodes'|
    ensures nodes' == if e.regid == 0 || e.regid in IndexMap(nodes) then nodes else nodes + [NodeOf(e)]
  {
    if e.regid == 0 {
      return count, nodes;
    }
    IndexMapIds(nodes, e.regid);
    var seen := SI.Find(slots, e.regid, IndexMap(nodes));
    if seen != SI.NONE {
      return count, nodes;
    }
    table[count] := NodeOf(e);
    SI.Insert(slots, e.regid, count, IndexMap(nodes));
    IndexMapAppend(nodes, NodeOf(e));
    count', nodes' := count + 1, nodes + [NodeOf(e)];
    assert IndexMap(nodes').Keys == IndexMap(nodes).Keys + {e.regid};
    assert table[..count'] == table[..count] + [NodeOf(e)];
  }

  /** Lines 516-521: node 0 is the synthetic root. */
  method RecordRoot(table: array<SnapNode>, slots: array<SI.Slot>)
    requires Sized(table, slots)
    requires forall j :: 0 <= j < slots.Length ==> SI.Empty(slots[j])
    modifies table, slots
    ensures Holds(table, slots, [ROOT])
  {
    SI.EmptyRepresents(slots[..]);
    table[0] := ROOT;
    SI.Insert(slots, 0, 0, map[]);
    IndexMapAppend([], ROOT);
    assert [] + [ROOT] == [ROOT];
    assert IndexMap([ROOT]) == map[0 := 0];
  }

  /** One round of the loop, in terms of the walk so far. */
  method WalkStep(walk: seq<Entry>, k: nat, ghost next: nat, table: array<SnapNode>, slots: array<SI.Slot>, count: nat)
    returns (count': nat)
    requires Sized(table, slots) && k < |walk| && next == k + 1 && Holds(table, slots, TableAfter(walk, k))
    requires count == |TableAfter(walk, k)| < table.Length
    modifies table, slots
    ensures Holds(table, slots, TableAfter(walk, next)) && count' == |TableAfter(walk, next)|
  {
    ghost var before := TableAfter(walk, k);
    ghost var nodes;
    count', nodes := RecordEntry(walk[k], table, slots, count, before);
    OneMore(walk, k, before, nodes);
  }

  /** Lines 528-591: the loop of the walk; `k` is where it stopped. */
  method WalkAll(walk: seq<Entry>, table: array<SnapNode>, slots: array<SI.Slot>) returns (count: nat, ghost k: nat)
    requires Sized(table, slots) && Holds(table, slots, TableAfter(walk, 0))
    modifies table, slots
    ensures k <= |walk| && Holds(table, slots, TableAfter(walk, k)) && count == |TableAfter(walk, k)|
    ensures k == |walk| || count == table.Length
  {
    count := 1;
    var i := 0;
    ghost var nodes := TableAfter(walk, i);
    while i < |walk| && count < table.Length
      invariant 0 <= i <= |walk| && nodes == TableAfter(walk, i) && count == |nodes| && Holds(table, slots, nodes)
    {
      count := WalkStep(walk, i, i + 1, table, slots, count);
      i := i + 1;
      nodes := TableAfter(walk, i);
    }
    k := i;
  }

  /** Lines 516-594: record first occurrences, in walk order, until the walk or the table ends. */
  method Walk(walk: seq<Entry>, table: array<SnapNode>, slots: array<SI.Slot>) returns (count: nat)
    requires Sized(table, slots)
    requires forall j :: 0 <= j < slots.Length ==> SI.Empty(slots[j])
    modifies table, slots
    ensures count == |Recorded(walk, table.Length)| && Holds(table, slots, Recorded(walk, table.Length))
  {
    RecordRoot(table, slots);
    ghost var k;
    count, k := WalkAll(walk, table, slots);
    CutOff(walk, k, table.Length);
  }
}
