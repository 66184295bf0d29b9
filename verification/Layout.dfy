/**
 What /sys looks like below its root: names, types, flags and instance numbers, directory by
 directory, and what it means for a tree of structure nodes to look like that.
 */
module Layout {
  import opened Names
  import opened Planting
  import opened Registry
  import opened StructureMemory

  /** A node and, in order, its children. */
  datatype Spec = Spec(name: string, kind: Kind, flags: Flags, instance: nat, kids: seq<Spec>)

  // ---------- The tree

  function Dots(dynamic: bool): seq<Spec> {
    [Spec(".", DirThis, Flags(dynamic, false, false), 0, []),
     Spec("..", DirParent, Flags(dynamic, false, false), 0, [])]
  }

  function Folder(name: string, dynamic: bool, kids: seq<Spec>): Spec {
    Spec(name, Dir, Flags(dynamic, false, false), 0, Dots(dynamic) + kids)
  }

  function FileSpec(name: string, dynamic: bool, instance: nat): Spec {
    Spec(name, File, Flags(dynamic, false, false), instance, [])
  }

  function Files(names: seq<string>, dynamic: bool, instance: nat): (files: seq<Spec>)
    ensures |files| == |names|
  {
    if names == [] then []
    else Files(names[..|names| - 1], dynamic, instance) + [FileSpec(names[|names| - 1], dynamic, instance)]
  }

  lemma {:induction false} FilesAt(names: seq<string>, dynamic: bool, instance: nat, i: nat)
    requires i < |names|
    ensures Files(names, dynamic, instance)[i] == FileSpec(names[i], dynamic, instance)
  {
    if i < |names| - 1 { FilesAt(names[..|names| - 1], dynamic, instance, i); }
  }

  /** A class directory and the marker its members are presented through. */
  function ClassFolder(name: string, wholeOnly: bool, classId: nat): Spec {
    Spec(name, Dir, Flags(true, wholeOnly, false), classId,
         Dots(true) + [Spec("__member__", Link, Flags(true, false, false), 0, [])])
  }

  function Classes(): Spec {
    Folder("class", false, [ClassFolder("net", false, 1), ClassFolder("block", false, 2), ClassFolder("tty", false, 3),
                            ClassFolder("power_supply", false, 4)])
  }

  function Dev(): Spec {
    Folder("dev", false, [Folder("char", false, []), Folder("block", false, [])])
  }

  function Hugepages(dynamic: bool, counters: seq<string>): Spec {
    Folder("hugepages", dynamic, [Folder("hugepages-2048kB", dynamic, Files(counters, dynamic, 0))])
  }

  function Node0(): Spec {
    Folder("node0", true,
           [Hugepages(true, ["nr_hugepages", "free_hugepages", "surplus_hugepages"])] +
           Files(["cpulist", "cpumap", "meminfo", "distance", "numastat"], true, 0))
  }

  function NumaNodes(): Spec {
    Folder("node", true, [Node0()] + Files(["online", "possible", "has_cpu", "has_memory"], true, 0))
  }

  function Topology(c: nat): Spec {
    Folder("topology", true,
           Files(["core_id", "physical_package_id", "thread_siblings_list", "core_siblings_list"], true, c))
    .(instance := c)
  }

  function Cpu(c: nat): Spec {
    Folder(Strlcpy("cpu" + Decimal(c), 32), true, [FileSpec("online", true, c), Topology(c)]).(instance := c)
  }

  function EachCpu(n: nat): (cpus: seq<Spec>)
    ensures |cpus| == n
  {
    if n == 0 then [] else EachCpu(n - 1) + [Cpu(n - 1)]
  }

  function CpuFolder(n: nat): Spec {
    Folder("cpu", true, Files(["online", "possible", "present", "offline", "kernel_max"], true, 0) + EachCpu(n))
  }

  function Devices(cpus: nat): Spec {
    Spec("devices", Device, Flags(true, false, false), 0, [Folder("system", true, [NumaNodes(), CpuFolder(cpus)])])
  }

  function MemoryFolder(): Spec {
    Folder("mm", false, [Hugepages(false, ["nr_hugepages", "free_hugepages", "surplus_hugepages", "resv_hugepages",
                                           "nr_overcommit_hugepages"])])
  }

  function Kernel(): Spec {
    Folder("kernel", false, [MemoryFolder()])
  }

  /** The modules directory and the marker every module is presented through. */
  function Modules(): Spec {
    Spec("module", Dir, Flags(false, false, true), 0,
         Dots(false) + [Spec("__member__", Module, Flags(false, false, true), 0, [])])
  }

  /** /sys with that many cpuN directories. */
  function SysTree(cpus: nat): Spec {
    Spec("/", Root, Flags(false, false, false), 0,
         Dots(false) +
         [ClassFolder("block", true, 2), Folder("bus", false, []), Classes(), Dev(), Devices(cpus),
          Folder("firmware", false, []), Folder("fs", false, []), Folder("hypervisor", false, []), Kernel(), Modules(),
          Folder("power", false, [])])
  }

  // ---------- Looking like it

  ghost predicate IsLike(node: Node, t: Spec) {
    node.name == t.name && node.kind == t.kind && node.flags == t.flags && node.instance == t.instance &&
    |node.children| == |t.kids|
  }

  /** The tree below a is just that. */
  ghost predicate Matches(cells: map<nat, Node>, a: nat, t: Spec)
    decreases t
  {
    a in cells && IsLike(cells[a], t) &&
    forall k {:trigger t.kids[k]} {:trigger cells[a].children[k]} :: 0 <= k < |t.kids| ==>
      Matches(cells, cells[a].children[k], t.kids[k])
  }

  /** Nodes younger than q are as they were. */
  ghost predicate SameAbove(before: map<nat, Node>, after: map<nat, Node>, q: nat) {
    forall x {:trigger after[x]} {:trigger before[x]} :: x in before && x > q ==> x in after && after[x] == before[x]
  }

  lemma {:induction false} StaysAlike(before: map<nat, Node>, after: map<nat, Node>, n: nat, budget: seq<nat>,
                                      q: nat, a: nat, t: Spec)
    requires Planted(before, n, budget) && SameAbove(before, after, q) && q < a && Matches(before, a, t)
    ensures Matches(after, a, t)
    decreases t
  {
    assert Branch(before, n, budget, a);
    forall k | 0 <= k < |t.kids| ensures Matches(after, after[a].children[k], t.kids[k]) {
      assert before[a].children[k] > a;
      StaysAlike(before, after, n, budget, q, before[a].children[k], t.kids[k]);
    }
  }

  /** A directory that gets some more children. */
  lemma {:induction false} AppendAll(before: map<nat, Node>, after: map<nat, Node>, n: nat, budget: seq<nat>,
                                     p: nat, t: Spec, nodes: seq<nat>, us: seq<Spec>)
    requires Planted(before, n, budget) && Matches(before, p, t) && Kept(before, after, p) && |nodes| == |us|
    requires p in after && after[p].children == before[p].children + nodes
    requires forall i :: 0 <= i < |us| ==> Matches(after, nodes[i], us[i])
    ensures Matches(after, p, t.(kids := t.kids + us))
  {
    var t' := t.(kids := t.kids + us);
    assert Branch(before, n, budget, p);
    forall k | 0 <= k < |t'.kids| ensures Matches(after, after[p].children[k], t'.kids[k]) {
      if k < |t.kids| {
        assert t'.kids[k] == t.kids[k] && after[p].children[k] == before[p].children[k] > p;
        StaysAlike(before, after, n, budget, p, before[p].children[k], t.kids[k]);
      } else {
        var i := k - |t.kids|;
        assert t'.kids[k] == us[i] && after[p].children[k] == nodes[i];
      }
    }
  }

  /** A directory that gets one more child. */
  lemma {:induction false} Append(before: map<nat, Node>, after: map<nat, Node>, n: nat, budget: seq<nat>,
                                  p: nat, t: Spec, node: nat, u: Spec)
    requires Planted(before, n, budget) && Matches(before, p, t) && Kept(before, after, p) && Matches(after, node, u)
    requires p in after && after[p].children == before[p].children + [node]
    ensures Matches(after, p, t.(kids := t.kids + [u]))
  {
    AppendAll(before, after, n, budget, p, t, [node], [u]);
  }

  /** A directory that gets an instance number. */
  lemma Number(before: map<nat, Node>, after: map<nat, Node>, n: nat, budget: seq<nat>, a: nat, t: Spec, instance: nat)
    requires Planted(before, n, budget) && Matches(before, a, t)
    requires after == before[a := before[a].(instance := instance)]
    ensures Matches(after, a, t.(instance := instance))
  {
    assert Branch(before, n, budget, a);
    forall k | 0 <= k < |t.kids| ensures Matches(after, after[a].children[k], t.kids[k]) {
      assert before[a].children[k] > a;
      StaysAlike(before, after, n, budget, a, before[a].children[k], t.kids[k]);
    }
  }
}
