/**
 The nodes of the static tree in memory (kext/sysfs_structure.c:376-525). Reading, detaching
 and freeing a node each require that it is still allocated, so that what is proved here also
 is that no freed node is touched and none is freed twice.
 */
module StructureMemory {
  import opened Wrappers
  import opened ReleaseOrder

  /** SYSFS_RELEASE_STACK_MAX. */
  const STACK_MAX: nat := 256

  datatype Kind = Root | Dir | File | Link | DirThis | DirParent | Device | Module

  /** SSN_FLAG_DYNAMIC, SSN_FLAG_WHOLE_ONLY and SSN_FLAG_MODULES. */
  datatype Flags = Flags(dynamic: bool, wholeOnly: bool, modules: bool)

  datatype Node = Node(kind: Kind, name: string, baseId: nat, flags: Flags, instance: nat, parent: Option<nat>,
                       children: seq<nat>)

  ghost function Heads(ts: seq<Tree>): (heads: seq<nat>)
    ensures |heads| == |ts| && forall i :: 0 <= i < |ts| ==> heads[i] == ts[i].addr
  {
    if ts == [] then [] else Heads(ts[..|ts| - 1]) + [ts[|ts| - 1].addr]
  }

  /** The tree is laid out in memory: its nodes are allocated, and their child lists are its. */
  ghost predicate Embeds(cells: map<nat, Node>, t: Tree) {
    t.addr in cells && cells[t.addr].children == Heads(t.kids) && EmbedsAll(cells, t.kids)
  }

  ghost predicate EmbedsAll(cells: map<nat, Node>, ts: seq<Tree>) {
    ts == [] || (EmbedsAll(cells, ts[..|ts| - 1]) && Embeds(cells, ts[|ts| - 1]))
  }

  ghost predicate NoRepeats(addrs: multiset<nat>) {
    forall a :: addrs[a] <= 1
  }

  /** Two memories give these addresses the same child lists. */
  ghost predicate SameLists(cells: map<nat, Node>, cells': map<nat, Node>, addrs: multiset<nat>) {
    forall a {:trigger addrs[a]} {:trigger a in cells'} :: a in addrs && a in cells ==>
      a in cells' && cells'[a].children == cells[a].children
  }

  lemma {:induction false} EmbedsStays(cells: map<nat, Node>, cells': map<nat, Node>, ts: seq<Tree>,
                                       addrs: multiset<nat>)
    requires EmbedsAll(cells, ts) && SameLists(cells, cells', addrs) && AddrsAll(ts) <= addrs
    ensures EmbedsAll(cells', ts)
    decreases ts
  {
    if ts != [] {
      var t := ts[|ts| - 1];
      assert AddrsAll(ts) == AddrsAll(ts[..|ts| - 1]) + (AddrsAll(t.kids) + multiset{t.addr});
      EmbedsStays(cells, cells', ts[..|ts| - 1], addrs);
      EmbedsStays(cells, cells', t.kids, addrs);
      assert t.addr in addrs;
    }
  }

  lemma {:induction false} EmbedsConcat(cells: map<nat, Node>, a: seq<Tree>, b: seq<Tree>)
    ensures EmbedsAll(cells, a + b) <==> EmbedsAll(cells, a) && EmbedsAll(cells, b)
    decreases |b|
  {
    if b == [] {
      assert a + b == a;
    } else {
      assert (a + b)[..|a + b| - 1] == a + b[..|b| - 1];
      EmbedsConcat(cells, a, b[..|b| - 1]);
    }
  }

  lemma {:induction false} AddrsHasHead(ts: seq<Tree>, i: nat)
    requires i < |ts|
    ensures ts[i].addr in AddrsAll(ts)
  {
    if i < |ts| - 1 { AddrsHasHead(ts[..|ts| - 1], i); }
  }

  lemma {:induction false} EmbedsHead(cells: map<nat, Node>, ts: seq<Tree>, i: nat)
    requires EmbedsAll(cells, ts) && i < |ts|
    ensures ts[i].addr in cells
  {
    if i < |ts| - 1 { EmbedsHead(cells, ts[..|ts| - 1], i); }
  }

  /** The top of the stack is not among what is below it or among its own descendants. */
  lemma TopIsApart(stack: seq<Tree>)
    requires stack != [] && NoRepeats(AddrsAll(stack))
    ensures var n := |stack| - 1; stack[n].addr !in AddrsAll(stack[..n]) + AddrsAll(stack[n].kids)
    ensures var n := |stack| - 1;
            AddrsAll(stack) == AddrsAll(stack[..n]) + (AddrsAll(stack[n].kids) + multiset{stack[n].addr})
  {
    var n := |stack| - 1;
    var top := stack[n].addr;
    assert Addrs(stack[n]) == AddrsAll(stack[n].kids) + multiset{top};
    var below, inside := AddrsAll(stack[..n]), AddrsAll(stack[n].kids);
    assert AddrsAll(stack)[top] == below[top] + inside[top] + 1;
  }

  lemma NextNoRepeats(stack: seq<Tree>, cap: nat)
    requires stack != [] && NoRepeats(AddrsAll(stack))
    ensures NoRepeats(AddrsAll(Next(stack, cap))) && AddrsAll(Next(stack, cap)) <= AddrsAll(stack)
    ensures stack[|stack| - 1].addr !in AddrsAll(Next(stack, cap))
  {
    NextAddrs(stack, cap);
    var next, all, top := AddrsAll(Next(stack, cap)), AddrsAll(stack), stack[|stack| - 1].addr;
    forall a ensures next[a] <= 1 && next[a] <= all[a] {
      assert (multiset{top} + next)[a] <= all[a];
    }
    assert (multiset{top} + next)[top] <= all[top];
  }

  /**
   What a release does to the nodes it has not freed: it unlinks nodes in `addrs` from their parents,
   and takes children from `node`.
   */
  ghost predicate OnlyUnlinks(before: map<nat, Node>, after: map<nat, Node>, node: nat, addrs: multiset<nat>) {
    node in after && after.Keys == before.Keys &&
    forall a {:trigger after[a]} :: a in after && a != node ==>
      after[a].children == before[a].children && (a !in addrs ==> after[a] == before[a])
  }

  lemma UnlinkOne(first: map<nat, Node>, before: map<nat, Node>, after: map<nat, Node>, node: nat, child: nat,
                  addrs: multiset<nat>)
    requires OnlyUnlinks(first, before, node, addrs) && child in addrs && child in before && child != node
    requires before[node].children != []
    requires var detached := before[node].(children := before[node].children[1..]);
             after == before[node := detached][child := before[child].(parent := None)]
    ensures OnlyUnlinks(first, after, node, addrs)
  {
  }

  /** The children are other nodes, allocated, and among `addrs`. */
  ghost predicate Within(cells: map<nat, Node>, node: nat, heads: seq<nat>, addrs: multiset<nat>) {
    forall i {:trigger heads[i]} :: 0 <= i < |heads| ==> heads[i] in cells && heads[i] != node && heads[i] in addrs
  }

  /** Whatever is not in `addrs` is as it was. */
  ghost predicate Untouched(before: map<nat, Node>, after: map<nat, Node>, addrs: multiset<nat>) {
    forall a {:trigger after[a]} {:trigger before[a]} :: a in before && a !in addrs ==>
      a in after && after[a] == before[a]
  }

  lemma HeadsWithin(cells: map<nat, Node>, t: Tree)
    requires Embeds(cells, t) && t.addr !in AddrsAll(t.kids)
    ensures Within(cells, t.addr, Heads(t.kids), AddrsAll(t.kids))
  {
    forall i | 0 <= i < |t.kids| ensures t.kids[i].addr in cells && t.kids[i].addr in AddrsAll(t.kids) {
      EmbedsHead(cells, t.kids, i);
      AddrsHasHead(t.kids, i);
    }
  }

  lemma TopReady(cells: map<nat, Node>, trees: seq<Tree>)
    requires trees != [] && EmbedsAll(cells, trees) && NoRepeats(AddrsAll(trees))
    ensures var top := trees[|trees| - 1];
            top.addr in cells && cells[top.addr].children == Heads(top.kids) &&
            Within(cells, top.addr, Heads(top.kids), AddrsAll(top.kids))
  {
    TopIsApart(trees);
    HeadsWithin(cells, trees[|trees| - 1]);
  }

  lemma NextHeads(trees: seq<Tree>, cap: nat)
    requires trees != []
    ensures var n := |trees| - 1;
            Heads(Next(trees, cap)) == Heads(trees[..n]) + Heads(trees[n].kids)[..Fitting(|trees[n].kids|, n, cap)]
  {
  }

  lemma NextEmbeds(cells: map<nat, Node>, trees: seq<Tree>, cap: nat)
    requires trees != [] && EmbedsAll(cells, trees)
    ensures EmbedsAll(cells, Next(trees, cap))
  {
    var n := |trees| - 1;
    var kids := trees[n].kids;
    var m := Fitting(|kids|, n, cap);
    assert kids == kids[..m] + kids[m..];
    assert Embeds(cells, trees[n]);
    EmbedsConcat(cells, kids[..m], kids[m..]);
    EmbedsConcat(cells, trees[..n], kids[..m]);
  }

  lemma UnlinkingIsLocal(before: map<nat, Node>, unlinked: map<nat, Node>, after: map<nat, Node>, top: nat,
                         kids: multiset<nat>, next: multiset<nat>, all: multiset<nat>)
    requires OnlyUnlinks(before, unlinked, top, kids) && after == unlinked - {top}
    requires top !in next && top in all && kids <= all
    ensures SameLists(before, after, next) && Untouched(before, after, all)
  {
    forall a | a in before && a != top ensures a in after && after[a] == unlinked[a] { }
  }

  /** Freeing the top leaves the trees that took its place as they were. */
  lemma AfterFree(before: map<nat, Node>, unlinked: map<nat, Node>, after: map<nat, Node>, trees: seq<Tree>, cap: nat)
    requires trees != [] && EmbedsAll(before, trees) && NoRepeats(AddrsAll(trees))
    requires OnlyUnlinks(before, unlinked, trees[|trees| - 1].addr, AddrsAll(trees[|trees| - 1].kids))
    requires after == unlinked - {trees[|trees| - 1].addr}
    ensures EmbedsAll(after, Next(trees, cap)) && Untouched(before, after, AddrsAll(trees))
  {
    var top := trees[|trees| - 1];
    var next := AddrsAll(Next(trees, cap));
    TopIsApart(trees);
    NextNoRepeats(trees, cap);
    NextEmbeds(before, trees, cap);
    UnlinkingIsLocal(before, unlinked, after, top.addr, AddrsAll(top.kids), next, AddrsAll(trees));
    EmbedsStays(before, after, Next(trees, cap), next);
  }

  /** Just what is in `freed` has gone. */
  ghost predicate Remains(before: map<nat, Node>, after: map<nat, Node>, freed: seq<nat>) {
    forall a {:trigger a in after} :: a in after <==> a in before && a !in freed
  }

  /** One round of the loop, put together with the rounds before it. */
  lemma OneMoreFreed(start: map<nat, Node>, before: map<nat, Node>, after: map<nat, Node>, freed: seq<nat>, top: nat,
                     addrs: multiset<nat>, all: multiset<nat>)
    requires Remains(start, before, freed) && after.Keys == before.Keys - {top}
    requires Untouched(start, before, all) && Untouched(before, after, addrs) && addrs <= all
    ensures Remains(start, after, freed + [top]) && Untouched(start, after, all)
  {
  }

  /** What has been freed and what the stack will still give make up the whole order. */
  ghost predicate Draining(start: map<nat, Node>, cells: map<nat, Node>, all: multiset<nat>, order: seq<nat>,
                           trees: seq<Tree>, freed: seq<nat>, cap: nat) {
    EmbedsAll(cells, trees) && NoRepeats(AddrsAll(trees)) && AddrsAll(trees) <= all &&
    freed + Drain(trees, cap) == order && Remains(start, cells, freed) && Untouched(start, cells, all)
  }

  lemma DrainStep(order: seq<nat>, trees: seq<Tree>, freed: seq<nat>, cap: nat)
    requires trees != [] && freed + Drain(trees, cap) == order
    ensures (freed + [trees[|trees| - 1].addr]) + Drain(Next(trees, cap), cap) == order
  {
    NextSize(trees, cap);
    var top, later := [trees[|trees| - 1].addr], Drain(Next(trees, cap), cap);
    assert freed + (top + later) == (freed + top) + later;
  }

  lemma Round(start: map<nat, Node>, before: map<nat, Node>, after: map<nat, Node>, all: multiset<nat>, order: seq<nat>,
              trees: seq<Tree>, freed: seq<nat>, cap: nat,
              top: nat, next: seq<Tree>)
    requires Draining(start, before, all, order, trees, freed, cap) && trees != [] && top == trees[|trees| - 1].addr
    requires next == Next(trees, cap)
    requires EmbedsAll(after, next) && Untouched(before, after, AddrsAll(trees)) && after.Keys == before.Keys - {top}
    ensures Draining(start, after, all, order, next, freed + [top], cap)
  {
    DrainStep(order, trees, freed, cap);
    NextNoRepeats(trees, cap);
    OneMoreFreed(start, before, after, freed, top, AddrsAll(trees), all);
  }

  /** TAILQ_REMOVE. */
  function Without(s: seq<nat>, a: nat): seq<nat> {
    if s == [] then [] else if s[0] == a then s[1..] else [s[0]] + Without(s[1..], a)
  }

  /** Lines 485-488: the root leaves its parent's list. */
  function Detached(cells: map<nat, Node>, root: nat): map<nat, Node>
    requires root in cells
  {
    if cells[root].parent.Some? && cells[root].parent.value in cells then
      var p := cells[root].parent.value;
      var unlisted := cells[p := cells[p].(children := Without(cells[p].children, root))];
      unlisted[root := unlisted[root].(parent := None)]
    else cells
  }

  /** The root's parent, if it has one, is an allocated node outside the tree. */
  ghost predicate Attached(cells: map<nat, Node>, t: Tree) {
    t.addr in cells &&
    (cells[t.addr].parent.Some? ==> cells[t.addr].parent.value in cells && cells[t.addr].parent.value !in Addrs(t))
  }

  lemma DetachedEmbeds(cells: map<nat, Node>, t: Tree)
    requires Embeds(cells, t) && Attached(cells, t)
    ensures Detached(cells, t.addr).Keys == cells.Keys && EmbedsAll(Detached(cells, t.addr), [t])
  {
    assert [t][..0] == [];
    assert AddrsAll([t]) == Addrs(t);
    EmbedsStays(cells, Detached(cells, t.addr), [t], Addrs(t));
  }

  class Memory {
    var cells: map<nat, Node>

    constructor (cells: map<nat, Node>)
      ensures this.cells == cells
    {
      this.cells := cells;
    }

    /** TAILQ_REMOVE of the first child, and the end of its link to its parent. */
    method DetachFirst(node: nat) returns (child: nat)
      requires node in cells && cells[node].children != [] && cells[node].children[0] in cells
      requires cells[node].children[0] != node
      modifies this
      ensures child == old(cells[node].children[0])
      ensures cells == old(cells)[node := old(cells[node]).(children := old(cells[node].children)[1..])]
                                 [child := old(cells[child]).(parent := None)]
    {
      child := cells[node].children[0];
      cells := cells[node := cells[node].(children := cells[node].children[1..])];
      cells := cells[child := cells[child].(parent := None)];
    }

    /** OSFree(). */
    method Free(node: nat)
      requires node in cells
      modifies this
      ensures cells == old(cells) - {node}
    {
      cells := cells - {node};
    }

    /** Lines 501-518: the children move from the node's list to the stack; when it is full, the rest is left behind. */
    method PushChildren(stack: array<nat>, node: nat, below: nat, ghost rest: seq<nat>, ghost heads: seq<nat>,
                        ghost addrs: multiset<nat>) returns (sp: nat)
      requires below == |rest| < stack.Length && stack[..below] == rest
      requires node in cells && cells[node].children == heads && Within(cells, node, heads, addrs)
      modifies this, stack
      ensures sp == below + Fitting(|heads|, below, stack.Length)
      ensures stack[..sp] == rest + heads[..sp - below]
      ensures OnlyUnlinks(old(cells), cells, node, addrs)
    {
      sp := below;
      while cells[node].children != []
        invariant below <= sp <= stack.Length && sp - below <= |heads|
        invariant OnlyUnlinks(old(cells), cells, node, addrs)
        invariant cells[node].children == heads[sp - below..]
        invariant stack[..sp] == rest + heads[..sp - below]
        decreases |cells[node].children|
      {
        ghost var before := cells;
        assert heads[sp - below] == cells[node].children[0];
        var child := DetachFirst(node);
        UnlinkOne(old(cells), before, cells, node, child, addrs);
        if sp >= stack.Length {
          return;
        }
        stack[sp] := child;
        sp := sp + 1;
      }
    }

    /** Lines 493-524: pop a node, push its children, free it. */
    method FreeTop(stack: array<nat>, sp: nat, ghost trees: seq<Tree>) returns (sp': nat)
      requires sp == |trees| <= stack.Length && stack[..sp] == Heads(trees) && EmbedsAll(cells, trees)
      requires NoRepeats(AddrsAll(trees))
      requires sp >= 1
      modifies this, stack
      ensures sp' == |Next(trees, stack.Length)| <= stack.Length && stack[..sp'] == Heads(Next(trees, stack.Length))
      ensures EmbedsAll(cells, Next(trees, stack.Length))
      ensures cells.Keys == old(cells.Keys) - {trees[sp - 1].addr}
      ensures Untouched(old(cells), cells, AddrsAll(trees))
    {
      ghost var top := trees[sp - 1];
      TopReady(cells, trees);
      var node := stack[sp - 1];
      assert node == stack[..sp][sp - 1] == top.addr;
      sp' := PushChildren(stack, node, sp - 1, Heads(trees[..sp - 1]), Heads(top.kids), AddrsAll(top.kids));
      ghost var unlinked := cells;
      Free(node);
      AfterFree(old(cells), unlinked, cells, trees, stack.Length);
      NextHeads(trees, stack.Length);
    }

    /** Lines 490-525: until the stack is empty. */
    method DrainStack(stack: array<nat>, ghost t: Tree) returns (ghost freed: seq<nat>)
      requires 1 <= stack.Length && stack[..1] == Heads([t]) && EmbedsAll(cells, [t]) && NoRepeats(AddrsAll([t]))
      modifies this, stack
      ensures freed == Drain([t], stack.Length)
      ensures Remains(old(cells), cells, freed) && Untouched(old(cells), cells, AddrsAll([t]))
    {
      freed := [];
      var sp := 1;
      ghost var trees, all, order := [t], AddrsAll([t]), Drain([t], stack.Length);
      assert freed + Drain(trees, stack.Length) == Drain(trees, stack.Length);
      while sp > 0
        invariant sp == |trees| <= stack.Length && stack[..sp] == Heads(trees)
        invariant Draining(old(cells), cells, all, order, trees, freed, stack.Length)
        decreases SizeAll(trees)
      {
        ghost var before := cells;
        sp := FreeTop(stack, sp, trees);
        NextSize(trees, stack.Length);
        ghost var top, next := trees[|trees| - 1].addr, Next(trees, stack.Length);
        Round(old(cells), before, cells, all, order, trees, freed, stack.Length, top, next);
        freed, trees := freed + [top], next;
      }
      assert freed + [] == freed;
    }

    /** Lines 485-488. */
    method Detach(root: nat)
      requires root in cells && (cells[root].parent.Some? ==> cells[root].parent.value in cells)
      modifies this
      ensures cells == Detached(old(cells), root)
    {
      if cells[root].parent.Some? {
        var p := cells[root].parent.value;
        cells := cells[p := cells[p].(children := Without(cells[p].children, root))];
        cells := cells[root := cells[root].(parent := None)];
      }
    }

    /** release_node(): the nodes freed, in order, are those of the drained stack; nothing else is touched. */
    method ReleaseNode(root: Option<nat>, cap: nat, ghost t: Tree) returns (ghost freed: seq<nat>)
      requires cap >= 1
      requires root.Some? ==> root.value == t.addr && Embeds(cells, t) && NoRepeats(Addrs(t)) && Attached(cells, t)
      modifies this
      ensures freed == if root.Some? then Drain([t], cap) else []
      ensures root.Some? ==>
                Remains(old(cells), cells, freed) && Untouched(Detached(old(cells), t.addr), cells, Addrs(t))
      ensures root.None? ==> cells == old(cells)
    {
      freed := [];
      if root.None? {
        return;
      }
      DetachedEmbeds(cells, t);
      Detach(root.value);
      var stack := new nat[cap];
      stack[0] := root.value;
      assert stack[..1] == [t.addr] == Heads([t]);
      assert AddrsAll([t]) == Addrs(t) by { assert [t][..0] == []; }
      freed := DrainStack(stack, t);
    }
  }
}
