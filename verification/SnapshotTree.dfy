/**
 The last pass of a build, the name ordinals (kext/sysfs_iokit.cpp:675-695), and the whole
 build: a snapshot whose tables agree with the plain meaning of the registry walk.
 */
module SnapshotTree {
  import opened ChildLists
  import opened Registry
  import opened SnapshotChildren

  /** Ranges and child array give every node its children. */
  ghost predicate Shaped(nodes: seq<SnapNode>, childIdx: seq<nat>, base: seq<SnapNode>) {
    1 <= |base| <= |childIdx| && SameButLinks(nodes, base) &&
    RangesSet(nodes, Parents(base), |base|) && Placed(childIdx, Parents(base), |base|, |base|)
  }

  /** The range of p in the child array is its list of children. */
  lemma RangeOf(nodes: seq<SnapNode>, childIdx: seq<nat>, base: seq<SnapNode>, p: nat)
    requires Shaped(nodes, childIdx, base) && p < |base|
    ensures nodes[p].numChildren == |Children(base, p)| && nodes[p].firstChild + nodes[p].numChildren <= |childIdx|
    ensures childIdx[nodes[p].firstChild..nodes[p].firstChild + nodes[p].numChildren] == Children(base, p)
    ensures forall k :: 0 <= k < |Children(base, p)| ==>
              Children(base, p)[k] < |base| && nodes[Children(base, p)[k]].name == SiblingNames(base, p)[k]
  {
    assert RangeSet(nodes[p], Parents(base), p);
    ParentsInside(base);
    RangeIsChildren(childIdx, Parents(base), p, |base|, nodes[p].firstChild, Children(base, p));
    ChildrenInside(Parents(base), p, |base|);
    forall k | 0 <= k < |Children(base, p)| ensures nodes[Children(base, p)[k]].name == SiblingNames(base, p)[k] {
      NamesOfAt(base, Children(base, p), k);
    }
  }

  /** Changing one ordinal changes nothing else. */
  lemma SetOrdinal(nodes: seq<SnapNode>, nodes': seq<SnapNode>, childIdx: seq<nat>, base: seq<SnapNode>, x: nat,
                   dup: nat)
    requires Shaped(nodes, childIdx, base) && x < |base| && nodes' == nodes[x := nodes[x].(dupOrdinal := dup)]
    ensures Shaped(nodes', childIdx, base)
  {
    forall p: nat | p < |base| ensures RangeSet(nodes'[p], Parents(base), p) {
      assert RangeSet(nodes[p], Parents(base), p);
    }
  }

  /** Lines 686-692: count the earlier siblings with the same name. */
  method CountSameName(table: array<SnapNode>, childIdx: array<nat>, first: nat, i: nat, ghost kids: seq<nat>,
                       ghost names: seq<string>)
    returns (dup: nat)
    requires i < |kids| == |names| && first + |kids| <= childIdx.Length && childIdx[first..first + |kids|] == kids
    requires forall k :: 0 <= k < |kids| ==> kids[k] < table.Length && table[kids[k]].name == names[k]
    ensures dup == CountEqual(names[..i], names[i])
  {
    ghost var range := childIdx[first..first + |kids|];
    var ci := childIdx[first + i];
    assert ci == range[i];
    dup := 0;
    var k := 0;
    while k < i
      invariant 0 <= k <= i
      invariant dup == CountEqual(names[..k], names[i])
    {
      assert names[..k + 1][..k] == names[..k];
      var sib := childIdx[first + k];
      assert sib == range[k];
      if table[sib].name == table[ci].name {
        dup := dup + 1;
      }
      k := k + 1;
    }
  }

  ghost predicate OrdinalsBelow(nodes: seq<SnapNode>, base: seq<SnapNode>, p: nat) {
    |nodes| == |base| &&
    forall x: nat :: 1 <= x < |base| && Parents(base)[x] < p ==> nodes[x].dupOrdinal == Ordinal(base, x)
  }

  ghost predicate OrdinalsAmong(nodes: seq<SnapNode>, base: seq<SnapNode>, kids: seq<nat>) {
    |nodes| == |base| && forall x :: x in kids ==> x < |base| && nodes[x].dupOrdinal == Ordinal(base, x)
  }

  /** Once the list of p is done, so are all nodes whose parent is p. */
  lemma ListDone(nodes: seq<SnapNode>, base: seq<SnapNode>, p: nat, next: nat)
    requires OrdinalsBelow(nodes, base, p) && OrdinalsAmong(nodes, base, Children(base, p)) && next == p + 1
    ensures OrdinalsBelow(nodes, base, next)
  {
    ChildrenBelowIs(Parents(base), p, |base|);
  }

  /** Setting the ordinal of the next child. */
  lemma OneMoreOrdinal(nodes: seq<SnapNode>, nodes': seq<SnapNode>, base: seq<SnapNode>, p: nat, kids: seq<nat>, i: nat,
                       next: nat)
    requires i < |kids| && kids[i] < |base| == |nodes| == |nodes'| && next == i + 1
    requires OrdinalsBelow(nodes, base, p) && OrdinalsAmong(nodes, base, kids[..i])
    requires forall x :: 0 <= x < |nodes| && x != kids[i] ==> nodes'[x] == nodes[x]
    requires nodes'[kids[i]].dupOrdinal == Ordinal(base, kids[i])
    ensures OrdinalsBelow(nodes', base, p) && OrdinalsAmong(nodes', base, kids[..next])
  {
    forall x | x in kids[..next] ensures x < |base| && nodes'[x].dupOrdinal == Ordinal(base, x) {
      if x != kids[i] { assert x in kids[..i]; }
    }
  }

  lemma RangeInTable(table: array<SnapNode>, childIdx: array<nat>, p: nat, base: seq<SnapNode>, kids: seq<nat>,
                     names: seq<string>)
    requires |base| <= table.Length && Shaped(table[..|base|], childIdx[..], base) && p < |base|
    requires kids == Children(base, p) && names == SiblingNames(base, p)
    ensures table[p].numChildren == |kids| && table[p].firstChild + |kids| <= childIdx.Length
    ensures childIdx[table[p].firstChild..table[p].firstChild + |kids|] == kids
    ensures forall k :: 0 <= k < |kids| ==> kids[k] < |base| && table[kids[k]].name == names[k]
  {
    ghost var nodes := table[..|base|];
    RangeOf(nodes, childIdx[..], base, p);
    assert nodes[p] == table[p];
    forall k | 0 <= k < |kids| ensures kids[k] < |base| && table[kids[k]].name == names[k] {
      assert nodes[kids[k]] == table[kids[k]];
    }
  }

  /** The index-th element of a node's range. */
  method ChildOf(table: array<SnapNode>, childIdx: array<nat>, p: nat, index: nat, ghost base: seq<SnapNode>)
    returns (ci: nat)
    requires |base| <= table.Length && Shaped(table[..|base|], childIdx[..], base) && p < |base|
    requires index < |Children(base, p)|
    ensures ci == Children(base, p)[index] < |base|
  {
    ghost var kids := Children(base, p);
    RangeInTable(table, childIdx, p, base, kids, SiblingNames(base, p));
    var first := table[p].firstChild;
    ci := childIdx[first + index];
    assert ci == childIdx[first..first + |kids|][index];
  }

  /** Lines 685-692: which node the i-th child is, and its ordinal. */
  method OrdinalOfChild(table: array<SnapNode>, childIdx: array<nat>, p: nat, i: nat, ghost base: seq<SnapNode>)
    returns (ci: nat, dup: nat)
    requires |base| <= table.Length && Shaped(table[..|base|], childIdx[..], base) && p < |base|
    requires i < |Children(base, p)|
    ensures ci == Children(base, p)[i] < |base| && dup == Ordinal(base, ci)
  {
    ghost var kids, names := Children(base, p), SiblingNames(base, p);
    var first := table[p].firstChild;
    RangeInTable(table, childIdx, p, base, kids, names);
    dup := CountSameName(table, childIdx, first, i, kids, names);
    ci := childIdx[first + i];
    assert ci == childIdx[first..first + |kids|][i];
    OrdinalInList(base, p, i);
  }

  /** Line 693: store it. */
  method OneOrdinal(table: array<SnapNode>, childIdx: array<nat>, p: nat, i: nat, ghost base: seq<SnapNode>)
    returns (ghost ci: nat)
    requires |base| <= table.Length && Shaped(table[..|base|], childIdx[..], base) && p < |base|
    requires i < |Children(base, p)|
    modifies table
    ensures Shaped(table[..|base|], childIdx[..], base)
    ensures ci == Children(base, p)[i] < |base| && table[ci].dupOrdinal == Ordinal(base, ci)
    ensures forall x :: 0 <= x < table.Length && x != ci ==> table[x] == old(table[x])
  {
    ghost var nodes, idx := table[..|base|], childIdx[..];
    var c, dup := OrdinalOfChild(table, childIdx, p, i, base);
    table[c] := table[c].(dupOrdinal := dup);
    assert table[..|base|] == nodes[c := nodes[c].(dupOrdinal := dup)];
    assert childIdx[..] == idx;
    SetOrdinal(nodes, table[..|base|], idx, base, c, dup);
    ci := c;
  }

  /** Lines 682-694: the ordinals of one node's children. */
  method OrdinalsOf(table: array<SnapNode>, childIdx: array<nat>, p: nat, ghost base: seq<SnapNode>)
    requires |base| <= table.Length && Shaped(table[..|base|], childIdx[..], base) && p < |base|
    requires OrdinalsBelow(table[..|base|], base, p)
    modifies table
    ensures Shaped(table[..|base|], childIdx[..], base)
    ensures OrdinalsBelow(table[..|base|], base, p + 1)
  {
    ghost var kids, idx := Children(base, p), childIdx[..];
    RangeOf(table[..|base|], idx, base, p);
    assert table[p] == table[..|base|][p];
    var n := table[p].numChildren;
    var i := 0;
    while i < n
      invariant 0 <= i <= n && childIdx[..] == idx
      invariant Shaped(table[..|base|], idx, base) && OrdinalsBelow(table[..|base|], base, p)
      invariant OrdinalsAmong(table[..|base|], base, kids[..i])
      modifies table
    {
      ghost var before := table[..|base|];
      ghost var ci := OneOrdinal(table, childIdx, p, i, base);
      OneMoreOrdinal(before, table[..|base|], base, p, kids, i, i + 1);
      i := i + 1;
    }
    assert kids[..n] == kids;
    ListDone(table[..|base|], base, p, p + 1);
  }

  /** Lines 681-695: every node's ordinal. */
  method AssignOrdinals(table: array<SnapNode>, childIdx: array<nat>, count: nat, ghost base: seq<SnapNode>)
    requires 1 <= count == |base| <= table.Length && Shaped(table[..|base|], childIdx[..], base)
    modifies table
    ensures Shaped(table[..|base|], childIdx[..], base)
    ensures forall x: nat :: 1 <= x < |base| ==> table[x].dupOrdinal == Ordinal(base, x)
  {
    ghost var idx := childIdx[..];
    var p := 0;
    while p < count
      invariant 0 <= p <= count && childIdx[..] == idx
      invariant Shaped(table[..|base|], idx, base) && OrdinalsBelow(table[..|base|], base, p)
      modifies table
    {
      OrdinalsOf(table, childIdx, p, base);
      p := p + 1;
    }
    ParentsInside(base);
    assert forall x: nat :: 1 <= x < |base| ==> table[x] == table[..|base|][x];
  }
}
