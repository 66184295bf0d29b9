/**
 Building a snapshot, second part (kext/sysfs_iokit.cpp:606-673): the count, prefix-sum and
 fill passes that give every node its children.
 */
module SnapshotChildren {
  import opened ChildLists
  import opened Registry
  import SI = SnapshotIndex

  /** Only the fields the later passes fill in may differ from the recorded table. */
  ghost predicate SameButLinks(nodes: seq<SnapNode>, base: seq<SnapNode>) {
    |nodes| == |base| &&
    forall i :: 0 <= i < |nodes| ==>
      nodes[i] == base[i].(firstChild := nodes[i].firstChild, numChildren := nodes[i].numChildren,
                           dupOrdinal := nodes[i].dupOrdinal)
  }

  /** A filled table `nodes` that equals the recorded `base`, links aside, and slots that index it. */
  datatype Tables = Tables(nodes: seq<SnapNode>, slots: seq<SI.Slot>, base: seq<SnapNode>)

  ghost predicate IndexedTables(t: Tables) {
    |t.base| >= 1 && SameButLinks(t.nodes, t.base) && SI.Represents(t.slots, IndexMap(t.base))
  }

  type Indexed = t: Tables | t.base == [] || IndexedTables(t) ghost witness Tables([], [], [])

  /** The arrays hold just these tables. */
  ghost predicate Holding(table: array<SnapNode>, slots: array<SI.Slot>, t: Indexed)
    reads table, slots
  {
    1 <= |t.base| <= table.Length && table[..|t.base|] == t.nodes && slots[..] == t.slots
  }

  /** Lines 624-627: the parent's index through the hash, or the root for an orphan. */
  method ParentOf(table: array<SnapNode>, slots: array<SI.Slot>, i: nat, ghost t: Indexed) returns (p: nat)
    requires Holding(table, slots, t) && i < |t.base|
    ensures p == Parents(t.base)[i] < |t.base|
  {
    ParentsAt(t.base, |t.base|, i);
    IndexMapIds(t.base, t.base[i].parentRegid);
    assert table[i] == t.nodes[i];
    p := SI.Find(slots, table[i].parentRegid, IndexMap(t.base));
    if p == SI.NONE {
      p := 0;
    }
  }

  // ---------- Counting

  ghost predicate Counted(counts: seq<nat>, par: seq<nat>, i: nat)
    requires i <= |par|
  {
    |counts| == |par| && forall p: nat :: p < |par| ==> counts[p] == Count(par, p, i)
  }

  lemma CountedOne(counts: seq<nat>, counts': seq<nat>, par: seq<nat>, i: nat, next: nat)
    requires 1 <= i < |par| && next == i + 1 && par[i] < |par| && Counted(counts, par, i)
    requires counts' == counts[par[i] := counts[par[i]] + 1]
    ensures Counted(counts', par, next)
  {
  }

  /** Lines 622-629: count the children of every node. */
  method CountChildren(table: array<SnapNode>, slots: array<SI.Slot>, count: nat, ghost t: Indexed)
    returns (counts: array<nat>)
    requires Holding(table, slots, t) && count == |t.base|
    ensures fresh(counts) && counts.Length == count && Counted(counts[..], Parents(t.base), count)
  {
    counts := new nat[count](_ => 0);
    for i := 1 to count
      invariant Holding(table, slots, t) && Counted(counts[..], Parents(t.base), i)
      modifies counts
    {
      var p := ParentOf(table, slots, i, t);
      ghost var before := counts[..];
      counts[p] := counts[p] + 1;
      assert counts[..] == before[p := before[p] + 1];
      CountedOne(before, counts[..], Parents(t.base), i, i + 1);
    }
  }

  /** Lines 631-642: the total. It is one less than the number of nodes, so the abort never happens. */
  method TotalChildren(counts: array<nat>, ghost par: seq<nat>) returns (total: nat)
    requires |par| >= 1 && Counted(counts[..], par, |par|) && forall i :: 1 <= i < |par| ==> par[i] < |par|
    ensures total == |par| - 1
  {
    OffsetTotal(par, |par|, |par|);
    total := 0;
    for j := 0 to counts.Length
      invariant total == Offset(par, j, |par|)
    {
      assert counts[j] == counts[..][j];
      total := total + counts[j];
    }
  }

  // ---------- Ranges

  /** Node p has been given its range. */
  ghost predicate RangeSet(node: SnapNode, par: seq<nat>, p: nat) {
    node.firstChild == Offset(par, p, |par|) && node.numChildren == Count(par, p, |par|)
  }

  ghost predicate RangesSet(nodes: seq<SnapNode>, par: seq<nat>, j: nat) {
    j <= |nodes| == |par| && forall p: nat :: p < j ==> RangeSet(nodes[p], par, p)
  }

  /** Lines 643-649: prefix sums give every node its range. */
  method AssignRanges(table: array<SnapNode>, counts: array<nat>, ghost base: seq<SnapNode>)
    requires 1 <= |base| == counts.Length <= table.Length && SameButLinks(table[..|base|], base)
    requires Counted(counts[..], Parents(base), |base|)
    modifies table
    ensures SameButLinks(table[..|base|], base) && RangesSet(table[..|base|], Parents(base), |base|)
  {
    ghost var par := Parents(base);
    var off := 0;
    for j := 0 to counts.Length
      invariant off == Offset(par, j, |base|)
      invariant SameButLinks(table[..|base|], base) && RangesSet(table[..|base|], par, j)
      modifies table
    {
      ghost var before := table[..|base|];
      assert counts[j] == counts[..][j];
      table[j] := table[j].(numChildren := counts[j], firstChild := off);
      assert table[..|base|] == before[j := table[j]];
      off := off + counts[j];
    }
  }

  // ---------- Filling

  ghost predicate AtCursors(cursor: seq<nat>, par: seq<nat>, i: nat)
    requires i <= |par|
  {
    |cursor| == |par| && forall p: nat :: p < |par| ==> cursor[p] == Offset(par, p, |par|) + Count(par, p, i)
  }

  lemma CursorsOne(cursor: seq<nat>, cursor': seq<nat>, par: seq<nat>, i: nat, next: nat)
    requires 1 <= i < |par| && next == i + 1 && par[i] < |par| && AtCursors(cursor, par, i)
    requires cursor' == cursor[par[i] := cursor[par[i]] + 1]
    ensures AtCursors(cursor', par, next)
  {
  }

  lemma StartCursors(nodes: seq<SnapNode>, cursor: seq<nat>, par: seq<nat>)
    requires 1 <= |nodes| == |par| == |cursor| && RangesSet(nodes, par, |par|)
    requires forall p: nat :: p < |par| ==> cursor[p] == nodes[p].firstChild
    ensures AtCursors(cursor, par, 1)
  {
    forall p: nat | p < |par| ensures cursor[p] == Offset(par, p, |par|) + Count(par, p, 1) {
      assert RangeSet(nodes[p], par, p);
    }
  }

  /** Lines 652-662: a cursor per parent, at the start of its range. */
  method FirstChildren(table: array<SnapNode>, count: nat, ghost par: seq<nat>) returns (cursor: array<nat>)
    requires 1 <= count == |par| <= table.Length && RangesSet(table[..count], par, count)
    ensures fresh(cursor) && AtCursors(cursor[..], par, 1)
  {
    cursor := new nat[count](_ => 0);
    for j := 0 to count
      invariant forall p: nat :: p < j ==> cursor[p] == table[p].firstChild
      modifies cursor
    {
      cursor[j] := table[j].firstChild;
    }
    StartCursors(table[..count], cursor[..], par);
  }

  /** Lines 651-671: place every child at its parent's cursor. Each write stays inside the array. */
  method FillChildren(table: array<SnapNode>, slots: array<SI.Slot>, childIdx: array<nat>, count: nat, ghost t: Indexed)
    requires Holding(table, slots, t) && count == |t.base| <= childIdx.Length
    requires RangesSet(t.nodes, Parents(t.base), count)
    modifies childIdx
    ensures Placed(childIdx[..], Parents(t.base), count, count)
  {
    ghost var par := Parents(t.base);
    ParentsInside(t.base);
    var cursor := FirstChildren(table, count, par);
    for i := 1 to count
      invariant Holding(table, slots, t)
      invariant AtCursors(cursor[..], par, i) && Placed(childIdx[..], par, i, count)
      modifies childIdx, cursor
    {
      var p := ParentOf(table, slots, i, t);
      PositionInside(par, i, count);
      ghost var before, cursors := childIdx[..], cursor[..];
      assert cursor[p] == cursors[p];
      childIdx[cursor[p]] := i;
      assert childIdx[..] == before[Position(par, i, count) := i];
      PlaceOne(before, childIdx[..], par, i, i + 1, count);
      cursor[p] := cursor[p] + 1;
      assert cursor[..] == cursors[p := cursors[p] + 1];
      CursorsOne(cursors, cursor[..], par, i, i + 1);
    }
  }
}
