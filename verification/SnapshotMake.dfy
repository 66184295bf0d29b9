/**
 sysfs_snap_build() as a whole (kext/sysfs_iokit.cpp:463-701): size the tables, walk the
 registry into them, link the children, number equal names. The registry walk and the
 outcome of each allocation are inputs.
 */
module SnapshotMake {
  import opened Growth
  import opened Registry
  import opened SnapshotBuild
  import opened SnapshotChildren
  import opened SnapshotTree
  import opened Snapshot
  import SI = SnapshotIndex

  /** Lines 606-695. The abort at 636-641 is never taken: the children always fit. */
  method LinkChildren(table: array<SnapNode>, slots: array<SI.Slot>, childIdx: array<nat>, count: nat, countsOk: bool,
                      cursorOk: bool, ghost t: Indexed)
    returns (aborted: bool)
    requires Holding(table, slots, t) && count == |t.base| <= childIdx.Length
    modifies table, childIdx
    ensures !aborted
    ensures SameButLinks(table[..|t.base|], t.base)
    ensures !(countsOk && cursorOk) ==> Childless(table[..|t.base|])
    ensures countsOk && cursorOk ==>
              Shaped(table[..|t.base|], childIdx[..], t.base) && OrdinalsStored(table[..|t.base|], t.base)
  {
    aborted := false;
    if !countsOk {
      DropChildren(table, count, t.base);
      return;
    }
    var counts := CountChildren(table, slots, count, t);
    ParentsInside(t.base);
    var total := TotalChildren(counts, Parents(t.base));
    if total > childIdx.Length {
      aborted := true;
      return;
    }
    AssignRanges(table, counts, t.base);
    if !cursorOk {
      DropChildren(table, count, t.base);
      return;
    }
    ghost var ranged: Indexed := Tables(table[..|t.base|], slots[..], t.base);
    FillChildren(table, slots, childIdx, count, ranged);
    AssignOrdinals(table, childIdx, count, t.base);
  }

  /** A snapshot of the walk, or nothing when one of its three tables could not be allocated. */
  method Build(walk: seq<Entry>, entries: nat, lastCount: nat, tablesOk: bool, countsOk: bool, cursorOk: bool)
    returns (snap: Snapshot?)
    ensures snap == null <==> !tablesOk
    ensures snap != null ==> fresh(snap) && snap.Valid() && snap.value.degraded == !(countsOk && cursorOk)
    ensures snap != null ==> snap.value.base == Recorded(walk, Capacity(Estimate(lastCount, entries)))
    ensures snap != null && lastCount == 0 && entries == |walk| ==>
              snap.value.base == if |AllNodes(walk)| <= 16384 then AllNodes(walk) else AllNodes(walk)[..16384]
  {
    FirstBuildIsRoomy(walk);
    RoomyRecordsAll(walk, Capacity(Estimate(0, |walk|)));
    var cap := Capacity(Estimate(lastCount, entries));
    var hsize := HashSize(cap);
    if !tablesOk {
      return null;
    }
    var nodes := new SnapNode[cap];
    var childIdx := new nat[cap];
    var hash := EmptyIndex(hsize);
    var count := Walk(walk, nodes, hash);
    RecordedShortNames(walk, cap);
    RecordedNotEmpty(walk, cap);
    snap := Assemble(nodes, childIdx, hash, count, countsOk, cursorOk, Recorded(walk, cap));
  }

  lemma RecordedNotEmpty(walk: seq<Entry>, cap: nat)
    requires cap >= 1
    ensures 1 <= |Recorded(walk, cap)| <= cap
  {
  }

  /** The walk is over: link the children, and the snapshot is complete. */
  method Assemble(nodes: array<SnapNode>, childIdx: array<nat>, hash: array<SI.Slot>, count: nat, countsOk: bool,
                  cursorOk: bool, ghost base: seq<SnapNode>)
    returns (snap: Snapshot)
    requires Holds(nodes, hash, base) && 1 <= count == |base| <= childIdx.Length && |base| <= MAX_NODES
    requires ShortNames(base)
    modifies nodes, childIdx
    ensures fresh(snap) && snap.Valid() && snap.value.degraded == !(countsOk && cursorOk) && snap.value.base == base
  {
    ghost var t := RecordedTables(nodes, hash, base);
    var aborted := LinkChildren(nodes, hash, childIdx, count, countsOk, cursorOk, t);
    ghost var value := LinkedValue(nodes[..count], childIdx[..], hash[..], base, !(countsOk && cursorOk));
    snap := new Snapshot(nodes, childIdx, hash, count, value);
  }

  /** What the walk leaves behind. */
  lemma RecordedTables(nodes: array<SnapNode>, hash: array<SI.Slot>, base: seq<SnapNode>) returns (t: Indexed)
    requires Holds(nodes, hash, base) && |base| >= 1
    ensures t == Tables(nodes[..|base|], hash[..], base) && Holding(nodes, hash, t)
  {
    t := Tables(nodes[..|base|], hash[..], base);
  }

  /** Linked tables make a snapshot. */
  lemma LinkedValue(nodes: seq<SnapNode>, childIdx: seq<nat>, slots: seq<SI.Slot>, base: seq<SnapNode>, degraded: bool)
    returns (value: Built)
    requires 1 <= |base| <= MAX_NODES && ShortNames(base) && SameButLinks(nodes, base)
    requires SI.Represents(slots, IndexMap(base))
    requires if degraded then Childless(nodes) else Shaped(nodes, childIdx, base) && OrdinalsStored(nodes, base)
    ensures value == Value(nodes, childIdx, slots, base, degraded)
  {
    value := Value(nodes, childIdx, slots, base, degraded);
  }
}
