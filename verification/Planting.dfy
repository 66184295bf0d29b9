/**
 The tree that growing by appending to child lists makes: what add_node() keeps
 (kext/sysfs_structure.c:376-418), and what that says about the tree as a whole.
 */
module Planting {
  import opened Wrappers
  import opened ReleaseOrder
  import opened StructureMemory

  /**
   Nodes are named in the order of their creation. `budget` bounds, for every node, how high
   releasing it lets the stack grow above it.
   */
  ghost predicate Planted(cells: map<nat, Node>, n: nat, budget: seq<nat>) {
    |budget| == n && (forall a: nat {:trigger a in cells} :: a in cells <==> a < n) &&
    forall a: nat {:trigger Linked(cells, a)} {:trigger Branch(cells, n, budget, a)} :: a < n ==>
      Linked(cells, a) && Branch(cells, n, budget, a)
  }

  /** Every node but the first is on the list of an older node, and inherits SSN_FLAG_DYNAMIC from it. */
  ghost predicate Linked(cells: map<nat, Node>, a: nat)
    requires a in cells
  {
    (cells[a].kind == Root <==> a == 0) && (cells[a].parent.None? <==> a == 0) && DotNamed(cells[a]) &&
    (a > 0 ==>
      var p := cells[a].parent.value;
      p < a && p in cells && a in cells[p].children && (cells[p].flags.dynamic ==> cells[a].flags.dynamic))
  }

  /** Nodes of type SFSdirthis and SFSdirparent are the "." and ".." entries. */
  ghost predicate DotNamed(node: Node) {
    (node.kind == DirThis ==> node.name == ".") && (node.kind == DirParent ==> node.name == "..")
  }

  /** The children are younger, in order of age, know their parent, and fit the budget. */
  ghost predicate Branch(cells: map<nat, Node>, n: nat, budget: seq<nat>, a: nat)
    requires a in cells && a < n == |budget|
  {
    var kids := cells[a].children;
    (forall k {:trigger kids[k]} :: 0 <= k < |kids| ==>
      a < kids[k] < n && kids[k] in cells && cells[kids[k]].parent == Some(a) &&
      k + Max(1, budget[kids[k]]) <= budget[a]) &&
    (forall j, k :: 0 <= j < k < |kids| ==> kids[j] < kids[k])
  }

  // ---------- The tree

  ghost function TreeAt(cells: map<nat, Node>, n: nat, budget: seq<nat>, a: nat): Tree
    requires Planted(cells, n, budget) && a < n
    decreases n - a, |cells[a].children| + 1
  {
    Tree(a, TreesOf(cells, n, budget, a, |cells[a].children|))
  }

  /** The trees of the first k children. */
  ghost function TreesOf(cells: map<nat, Node>, n: nat, budget: seq<nat>, a: nat, k: nat): (ts: seq<Tree>)
    requires Planted(cells, n, budget) && a < n && k <= |cells[a].children|
    ensures |ts| == k
    decreases n - a, k
  {
    if k == 0 then []
    else
      assert Branch(cells, n, budget, a);
      TreesOf(cells, n, budget, a, k - 1) + [TreeAt(cells, n, budget, cells[a].children[k - 1])]
  }

  /** One child more, and what its tree is. */
  lemma TreesGrow(cells: map<nat, Node>, n: nat, budget: seq<nat>, a: nat, k: nat)
    returns (before: seq<Tree>, c: nat, t: Tree)
    requires Planted(cells, n, budget) && a < n && 0 < k <= |cells[a].children|
    ensures before == TreesOf(cells, n, budget, a, k - 1) && TreesOf(cells, n, budget, a, k) == before + [t]
    ensures c == cells[a].children[k - 1] && a < c < n && k - 1 + Max(1, budget[c]) <= budget[a]
    ensures t == Tree(c, TreesOf(cells, n, budget, c, |cells[c].children|))
  {
    assert Branch(cells, n, budget, a);
    c := cells[a].children[k - 1];
    before, t := TreesOf(cells, n, budget, a, k - 1), TreeAt(cells, n, budget, c);
  }

  lemma {:induction false} Snoc(ts: seq<Tree>, t: Tree)
    ensures PeakAll(ts + [t]) == Max(PeakAll(ts), Max(|ts| + 1, |ts| + PeakAll(t.kids)))
    ensures AddrsAll(ts + [t]) == AddrsAll(ts) + (AddrsAll(t.kids) + multiset{t.addr})
    ensures Heads(ts + [t]) == Heads(ts) + [t.addr]
    ensures forall cells :: EmbedsAll(cells, ts + [t]) <==> EmbedsAll(cells, ts) && Embeds(cells, t)
  {
    assert (ts + [t])[..|ts|] == ts;
  }

  lemma {:induction false} TreesEmbed(cells: map<nat, Node>, n: nat, budget: seq<nat>, a: nat, k: nat)
    requires Planted(cells, n, budget) && a < n && k <= |cells[a].children|
    ensures EmbedsAll(cells, TreesOf(cells, n, budget, a, k))
    ensures Heads(TreesOf(cells, n, budget, a, k)) == cells[a].children[..k]
    decreases n - a, k
  {
    if k > 0 {
      var before, c, t := TreesGrow(cells, n, budget, a, k);
      TreesEmbed(cells, n, budget, a, k - 1);
      TreesEmbed(cells, n, budget, c, |cells[c].children|);
      Snoc(before, t);
      assert cells[c].children[..|cells[c].children|] == cells[c].children;
      assert cells[a].children[..k] == cells[a].children[..k - 1] + [c];
      assert Embeds(cells, t);
    }
  }

  lemma TreeEmbeds(cells: map<nat, Node>, n: nat, budget: seq<nat>, a: nat)
    requires Planted(cells, n, budget) && a < n
    ensures Embeds(cells, TreeAt(cells, n, budget, a))
  {
    TreesEmbed(cells, n, budget, a, |cells[a].children|);
    assert cells[a].children[..|cells[a].children|] == cells[a].children;
  }

  /** The budget does bound the stack. */
  lemma {:induction false} TreesPeak(cells: map<nat, Node>, n: nat, budget: seq<nat>, a: nat, k: nat)
    requires Planted(cells, n, budget) && a < n && k <= |cells[a].children|
    ensures PeakAll(TreesOf(cells, n, budget, a, k)) <= budget[a]
    decreases n - a, k
  {
    if k > 0 {
      var before, c, t := TreesGrow(cells, n, budget, a, k);
      TreesPeak(cells, n, budget, a, k - 1);
      TreesPeak(cells, n, budget, c, |cells[c].children|);
      SnocPeak(before, t);
    }
  }

  lemma {:induction false} SnocPeak(ts: seq<Tree>, t: Tree)
    ensures PeakAll(ts + [t]) == Max(PeakAll(ts), Max(|ts| + 1, |ts| + PeakAll(t.kids)))
  {
    assert (ts + [t])[..|ts|] == ts;
  }

  // ---------- Every node is in the tree once

  /** a is x or above it. */
  ghost predicate Above(cells: map<nat, Node>, n: nat, budget: seq<nat>, a: nat, x: nat)
    requires Planted(cells, n, budget) && x < n
    decreases x
  {
    a == x || (x > 0 && assert Linked(cells, x); Above(cells, n, budget, a, cells[x].parent.value))
  }

  lemma {:induction false} AboveIsOlder(cells: map<nat, Node>, n: nat, budget: seq<nat>, a: nat, x: nat)
    requires Planted(cells, n, budget) && x < n && Above(cells, n, budget, a, x)
    ensures a <= x
    decreases x
  {
    if a != x {
      assert Linked(cells, x);
      AboveIsOlder(cells, n, budget, a, cells[x].parent.value);
    }
  }

  /** Of two nodes above x, the older is above the younger's parent. */
  lemma {:induction false} AboveIsChain(cells: map<nat, Node>, n: nat, budget: seq<nat>, a: nat, b: nat, x: nat)
    requires Planted(cells, n, budget) && x < n && a < b && Above(cells, n, budget, a, x)
    requires Above(cells, n, budget, b, x)
    ensures b < n && 0 < b && Linked(cells, b) && Above(cells, n, budget, a, cells[b].parent.value)
    decreases x
  {
    AboveIsOlder(cells, n, budget, b, x);
    assert Linked(cells, x);
    if b != x { AboveIsChain(cells, n, budget, a, b, cells[x].parent.value); }
  }

  /** The first k children of a include one that is above x. */
  ghost predicate AmongFirst(cells: map<nat, Node>, n: nat, budget: seq<nat>, a: nat, k: nat, x: nat)
    requires Planted(cells, n, budget) && a < n && x < n && k <= |cells[a].children|
  {
    exists j :: 0 <= j < k && Above(cells, n, budget, cells[a].children[j], x)
  }

  /** Siblings are not above the same node. */
  lemma OneBranch(cells: map<nat, Node>, n: nat, budget: seq<nat>, a: nat, j: nat, k: nat, x: nat)
    requires Planted(cells, n, budget) && a < n && x < n && j < k < |cells[a].children|
    ensures !(Above(cells, n, budget, cells[a].children[j], x) && Above(cells, n, budget, cells[a].children[k], x))
  {
    assert Branch(cells, n, budget, a);
    var b, c := cells[a].children[j], cells[a].children[k];
    if Above(cells, n, budget, b, x) && Above(cells, n, budget, c, x) {
      AboveIsChain(cells, n, budget, b, c, x);
      AboveIsOlder(cells, n, budget, b, a);
    }
  }

  lemma {:induction false} AboveThroughChild(cells: map<nat, Node>, n: nat, budget: seq<nat>, a: nat, x: nat)
    requires Planted(cells, n, budget) && a < n && x < n
    ensures Above(cells, n, budget, a, x) <==> a == x || AmongFirst(cells, n, budget, a, |cells[a].children|, x)
    decreases x
  {
    assert Branch(cells, n, budget, a);
    if x > 0 {
      assert Linked(cells, x);
      var p := cells[x].parent.value;
      AboveThroughChild(cells, n, budget, a, p);
      if a == p {
        var k :| 0 <= k < |cells[a].children| && cells[a].children[k] == x;
        assert Above(cells, n, budget, cells[a].children[k], x);
      }
      if AmongFirst(cells, n, budget, a, |cells[a].children|, p) {
        var j :| 0 <= j < |cells[a].children| && Above(cells, n, budget, cells[a].children[j], p);
        assert Above(cells, n, budget, cells[a].children[j], x);
      }
      if AmongFirst(cells, n, budget, a, |cells[a].children|, x) {
        var j :| 0 <= j < |cells[a].children| && Above(cells, n, budget, cells[a].children[j], x);
        if cells[a].children[j] == x { assert p == a; }
      }
    }
  }

  lemma AmongOneMore(cells: map<nat, Node>, n: nat, budget: seq<nat>, a: nat, k: nat, c: nat, x: nat)
    requires Planted(cells, n, budget) && a < n && x < n && 0 < k <= |cells[a].children|
    requires c == cells[a].children[k - 1]
    ensures AmongFirst(cells, n, budget, a, k, x) <==>
            AmongFirst(cells, n, budget, a, k - 1, x) || Above(cells, n, budget, c, x)
    ensures !(AmongFirst(cells, n, budget, a, k - 1, x) && Above(cells, n, budget, c, x))
  {
    if AmongFirst(cells, n, budget, a, k - 1, x) {
      var j :| 0 <= j < k - 1 && Above(cells, n, budget, cells[a].children[j], x);
      OneBranch(cells, n, budget, a, j, k - 1, x);
    }
  }

  lemma NotBelowItself(cells: map<nat, Node>, n: nat, budget: seq<nat>, c: nat)
    requires Planted(cells, n, budget) && c < n
    ensures !AmongFirst(cells, n, budget, c, |cells[c].children|, c)
  {
    assert Branch(cells, n, budget, c);
    if AmongFirst(cells, n, budget, c, |cells[c].children|, c) {
      var j :| 0 <= j < |cells[c].children| && Above(cells, n, budget, cells[c].children[j], c);
      AboveIsOlder(cells, n, budget, cells[c].children[j], c);
    }
  }

  /** How often an address occurs below a. */
  lemma {:induction false} TreesCount(cells: map<nat, Node>, n: nat, budget: seq<nat>, a: nat, k: nat, x: nat)
    requires Planted(cells, n, budget) && a < n && x < n && k <= |cells[a].children|
    ensures AddrsAll(TreesOf(cells, n, budget, a, k))[x] == if AmongFirst(cells, n, budget, a, k, x) then 1 else 0
    decreases n - a, k
  {
    if k > 0 {
      var before, c, t := TreesGrow(cells, n, budget, a, k);
      TreesCount(cells, n, budget, a, k - 1, x);
      TreesCount(cells, n, budget, c, |cells[c].children|, x);
      AboveThroughChild(cells, n, budget, c, x);
      AmongOneMore(cells, n, budget, a, k, c, x);
      NotBelowItself(cells, n, budget, c);
      Snoc(before, t);
    }
  }

  lemma {:induction false} RootIsAbove(cells: map<nat, Node>, n: nat, budget: seq<nat>, x: nat)
    requires Planted(cells, n, budget) && x < n
    ensures Above(cells, n, budget, 0, x)
    decreases x
  {
    if x > 0 {
      assert Linked(cells, x);
      RootIsAbove(cells, n, budget, cells[x].parent.value);
    }
  }

  lemma {:induction false} NothingOutside(cells: map<nat, Node>, n: nat, budget: seq<nat>, a: nat, k: nat, x: nat)
    requires Planted(cells, n, budget) && a < n && x >= n && k <= |cells[a].children|
    ensures x !in AddrsAll(TreesOf(cells, n, budget, a, k))
    decreases n - a, k
  {
    if k > 0 {
      var before, c, t := TreesGrow(cells, n, budget, a, k);
      NothingOutside(cells, n, budget, a, k - 1, x);
      NothingOutside(cells, n, budget, c, |cells[c].children|, x);
      Snoc(before, t);
    }
  }

  /** From the root, the tree has every node exactly once, and needs no more stack than the root's budget. */
  lemma WholeTree(cells: map<nat, Node>, n: nat, budget: seq<nat>)
    requires Planted(cells, n, budget) && n > 0
    ensures var t := TreeAt(cells, n, budget, 0);
            && Embeds(cells, t) && Attached(cells, t) && NoRepeats(Addrs(t)) && Peak(t) <= budget[0]
            && forall x: nat {:trigger x in cells} :: x in Addrs(t) <==> x in cells
  {
    var t := TreeAt(cells, n, budget, 0);
    var k := |cells[0].children|;
    TreeEmbeds(cells, n, budget, 0);
    TreesPeak(cells, n, budget, 0, k);
    assert Linked(cells, 0);
    forall x: nat ensures Addrs(t)[x] == if x < n then 1 else 0 {
      if x < n {
        TreesCount(cells, n, budget, 0, k, x);
        RootIsAbove(cells, n, budget, x);
        AboveThroughChild(cells, n, budget, 0, x);
        NotBelowItself(cells, n, budget, 0);
      } else {
        NothingOutside(cells, n, budget, 0, k, x);
      }
    }
    forall x: int ensures Addrs(t)[x] <= 1 {
      if x < 0 { assert x !in Addrs(t); }
    }
  }

  // ---------- Adding a node

  /** All nodes there were are as they were, but for the child list of p, which has grown. */
  ghost predicate Kept(before: map<nat, Node>, after: map<nat, Node>, p: nat) {
    (forall a {:trigger after[a]} {:trigger before[a]} :: a in before && a != p ==>
       a in after && after[a] == before[a]) &&
    (p in before ==> p in after && after[p] == before[p].(children := after[p].children) &&
                     before[p].children <= after[p].children)
  }

  /** A leaf appended to p's list keeps what is planted. */
  lemma PlantLeaf(cells: map<nat, Node>, cells': map<nat, Node>, n: nat, budget: seq<nat>, p: nat, leaf: Node, b: nat)
    requires Planted(cells, n, budget) && p < n && |cells[p].children| + Max(1, b) <= budget[p]
    requires leaf.parent == Some(p) && leaf.children == [] && leaf.kind != Root && DotNamed(leaf)
    requires cells[p].flags.dynamic ==> leaf.flags.dynamic
    requires cells' == cells[n := leaf][p := cells[p].(children := cells[p].children + [n])]
    ensures Planted(cells', n + 1, budget + [b]) && Kept(cells, cells', p)
  {
    forall a: nat | a < n + 1 ensures Linked(cells', a) && Branch(cells', n + 1, budget + [b], a) {
      if a < n {
        assert Linked(cells, a) && Branch(cells, n, budget, a);
        if a == p { assert cells'[p].children == cells[p].children + [n]; }
      } else {
        assert cells'[p].children[|cells[p].children|] == n;
      }
    }
  }

  /** Setting ssn_instance changes nothing about the tree. */
  lemma PlantedStays(cells: map<nat, Node>, cells': map<nat, Node>, n: nat, budget: seq<nat>, a: nat, instance: nat)
    requires Planted(cells, n, budget) && a < n && cells' == cells[a := cells[a].(instance := instance)]
    ensures Planted(cells', n, budget)
  {
    forall x: nat | x < n ensures Linked(cells', x) && Branch(cells', n, budget, x) {
      assert Linked(cells, x) && Branch(cells, n, budget, x);
    }
  }
}
