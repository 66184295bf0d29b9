/**
 Freeing a tree with a bounded stack (kext/sysfs_structure.c:460-525), on values: which nodes
 are freed, in which order, and when that is all of them.
 */
module ReleaseOrder {
  datatype Tree = Tree(addr: nat, kids: seq<Tree>)

  function Max(a: int, b: int): int { if a >= b then a else b }

  ghost function Size(t: Tree): nat {
    1 + SizeAll(t.kids)
  }

  ghost function SizeAll(ts: seq<Tree>): nat {
    if ts == [] then 0 else SizeAll(ts[..|ts| - 1]) + Size(ts[|ts| - 1])
  }

  /** All addresses, each as often as it occurs. */
  ghost function Addrs(t: Tree): multiset<nat> {
    AddrsAll(t.kids) + multiset{t.addr}
  }

  ghost function AddrsAll(ts: seq<Tree>): multiset<nat> {
    if ts == [] then multiset{} else AddrsAll(ts[..|ts| - 1]) + Addrs(ts[|ts| - 1])
  }

  /** The most entries the stack holds while the trees on it are freed. */
  ghost function PeakAll(ts: seq<Tree>): nat {
    if ts == [] then 0
    else
      var n := |ts| - 1;
      Max(PeakAll(ts[..n]), Max(n + 1, n + Peak(ts[n])))
  }

  ghost function Peak(t: Tree): nat {
    PeakAll(t.kids)
  }

  /** How many of `kids` more entries fit on a stack of `used` entries. */
  function Fitting(kids: nat, used: nat, cap: nat): (n: nat)
    ensures n <= kids && (used <= cap ==> used + n <= cap) && (n == kids <==> kids == 0 || used + kids <= cap)
  {
    if used >= cap then 0 else if kids <= cap - used then kids else cap - used
  }

  /** The stack after its top was freed: its children take its place while there is room. */
  ghost function Next(stack: seq<Tree>, cap: nat): seq<Tree>
    requires stack != []
  {
    var n := |stack| - 1;
    stack[..n] + stack[n].kids[..Fitting(|stack[n].kids|, n, cap)]
  }

  /** The order of freeing. */
  ghost function Drain(stack: seq<Tree>, cap: nat): seq<nat>
    decreases SizeAll(stack)
  {
    if stack == [] then []
    else
      NextSize(stack, cap);
      [stack[|stack| - 1].addr] + Drain(Next(stack, cap), cap)
  }

  lemma NextSize(stack: seq<Tree>, cap: nat)
    requires stack != []
    ensures SizeAll(Next(stack, cap)) < SizeAll(stack)
    ensures SizeAll(Next(stack, cap)) == SizeAll(stack) - 1 <==>
            Next(stack, cap) == stack[..|stack| - 1] + stack[|stack| - 1].kids
  {
    var n := |stack| - 1;
    var kids := stack[n].kids;
    var m := Fitting(|kids|, n, cap);
    SizeConcat(stack[..n], kids[..m]);
    SizePrefix(kids, m);
    assert Size(stack[n]) == 1 + SizeAll(kids);
    if m == |kids| { assert kids[..m] == kids; } else { assert |Next(stack, cap)| < n + |kids|; }
  }

  lemma {:induction false} SizeConcat(a: seq<Tree>, b: seq<Tree>)
    ensures SizeAll(a + b) == SizeAll(a) + SizeAll(b)
    decreases |b|
  {
    if b == [] {
      assert a + b == a;
    } else {
      assert (a + b)[..|a + b| - 1] == a + b[..|b| - 1];
      SizeConcat(a, b[..|b| - 1]);
    }
  }

  lemma SizePrefix(ts: seq<Tree>, n: nat)
    requires n <= |ts|
    ensures SizeAll(ts[..n]) <= SizeAll(ts) && (n < |ts| ==> SizeAll(ts[..n]) < SizeAll(ts))
  {
    assert ts == ts[..n] + ts[n..];
    SizeConcat(ts[..n], ts[n..]);
  }

  lemma {:induction false} AddrsConcat(a: seq<Tree>, b: seq<Tree>)
    ensures AddrsAll(a + b) == AddrsAll(a) + AddrsAll(b)
    decreases |b|
  {
    if b == [] {
      assert a + b == a;
    } else {
      assert (a + b)[..|a + b| - 1] == a + b[..|b| - 1];
      AddrsConcat(a, b[..|b| - 1]);
    }
  }

  lemma {:induction false} PeakConcat(a: seq<Tree>, b: seq<Tree>)
    ensures PeakAll(a + b) == if b == [] then PeakAll(a) else Max(PeakAll(a), |a| + PeakAll(b))
    decreases |b|
  {
    if b == [] {
      assert a + b == a;
    } else {
      assert (a + b)[..|a + b| - 1] == a + b[..|b| - 1];
      PeakConcat(a, b[..|b| - 1]);
    }
  }

  /** The peak with the top's children in its place. */
  lemma NextPeak(stack: seq<Tree>, cap: nat)
    requires stack != [] && |stack| <= cap
    ensures |Next(stack, cap)| <= cap
    ensures PeakAll(stack) <= cap <==>
            Next(stack, cap) == stack[..|stack| - 1] + stack[|stack| - 1].kids && PeakAll(Next(stack, cap)) <= cap
  {
    var n := |stack| - 1;
    var kids := stack[n].kids;
    var m := Fitting(|kids|, n, cap);
    PeakConcat(stack[..n], kids[..m]);
    assert Peak(stack[n]) == PeakAll(kids);
    if m == |kids| { assert kids[..m] == kids; } else {
      PeakAtLeast(kids);
      assert |Next(stack, cap)| < n + |kids|;
    }
  }

  /** Every node is freed just if the stack never has to hold more than it can. */
  lemma {:induction false} DrainFreesAllIff(stack: seq<Tree>, cap: nat)
    requires |stack| <= cap
    ensures |Drain(stack, cap)| <= SizeAll(stack)
    ensures |Drain(stack, cap)| == SizeAll(stack) <==> PeakAll(stack) <= cap
    decreases SizeAll(stack)
  {
    if stack != [] {
      NextSize(stack, cap);
      NextPeak(stack, cap);
      DrainFreesAllIff(Next(stack, cap), cap);
    }
  }

  lemma PeakAtLeast(ts: seq<Tree>)
    ensures PeakAll(ts) >= |ts|
  {
  }

  lemma AddrsPrefix(ts: seq<Tree>, m: nat)
    requires m <= |ts|
    ensures AddrsAll(ts[..m]) <= AddrsAll(ts)
  {
    var a, b := ts[..m], ts[m..];
    assert ts == a + b;
    AddrsConcat(a, b);
    PartOfSum(AddrsAll(a), AddrsAll(b));
  }

  lemma PartOfSum(some: multiset<nat>, more: multiset<nat>)
    ensures some <= some + more
  {
  }

  lemma AddToBoth(a: nat, rest: multiset<nat>, some: multiset<nat>, all: multiset<nat>)
    requires some <= all
    ensures multiset{a} + (rest + some) <= rest + (all + multiset{a})
  {
  }

  lemma NextAddrs(stack: seq<Tree>, cap: nat)
    requires stack != []
    ensures multiset{stack[|stack| - 1].addr} + AddrsAll(Next(stack, cap)) <= AddrsAll(stack)
  {
    var n := |stack| - 1;
    var kids := stack[n].kids;
    var m := Fitting(|kids|, n, cap);
    AddrsConcat(stack[..n], kids[..m]);
    AddrsPrefix(kids, m);
    assert Addrs(stack[n]) == AddrsAll(kids) + multiset{stack[n].addr};
    AddToBoth(stack[n].addr, AddrsAll(stack[..n]), AddrsAll(kids[..m]), AddrsAll(kids));
  }

  /** Nothing is freed more often than it occurs in the trees on the stack. */
  lemma {:induction false} DrainFreesOnce(stack: seq<Tree>, cap: nat)
    ensures multiset(Drain(stack, cap)) <= AddrsAll(stack)
    decreases SizeAll(stack)
  {
    if stack != [] {
      NextSize(stack, cap);
      NextAddrs(stack, cap);
      DrainFreesOnce(Next(stack, cap), cap);
    }
  }

  lemma {:induction false} AddrsCount(ts: seq<Tree>)
    ensures |AddrsAll(ts)| == SizeAll(ts)
    decreases ts
  {
    if ts != [] {
      AddrsCount(ts[..|ts| - 1]);
      AddrsCount(ts[|ts| - 1].kids);
    }
  }

  lemma SameSizeIsSame(a: multiset<nat>, b: multiset<nat>)
    requires a <= b
    ensures |a| == |b| <==> a == b
  {
    assert b == a + (b - a);
    assert |b| == |a| + |b - a|;
    if |a| == |b| { assert b - a == multiset{}; }
  }

  /** Exactly the nodes of the tree are freed, each once, just if the tree's peak fits the stack. */
  lemma ReleaseIsCompleteIff(t: Tree, cap: nat)
    requires cap >= 1
    ensures multiset(Drain([t], cap)) <= Addrs(t)
    ensures multiset(Drain([t], cap)) == Addrs(t) <==> Peak(t) <= cap
  {
    assert [t][..0] == [];
    DrainFreesOnce([t], cap);
    DrainFreesAllIff([t], cap);
    AddrsCount([t]);
    SameSizeIsSame(multiset(Drain([t], cap)), AddrsAll([t]));
  }
}
