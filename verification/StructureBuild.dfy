/**
 Building the static tree (kext/sysfs_structure.c:94-347, :376-454), node by node and in the
 order of the source. Each addition spends from its parent's stack budget, so that the whole
 tree is shown to be releasable; and each says which new directories sysfs_is_class_dir()
 will take for class directories.
 */
module StructureBuild {
  import opened Wrappers
  import opened Layout
  import opened Names
  import opened Planting
  import opened Registry
  import opened ReleaseOrder
  import opened StructureMemory

  /** MAX_STRUCT_NODE_NAME_LEN, SYSFS_ROOT_NODE_BASE_ID, SYSFS_MAX_CPU_NODES. */
  const NAME_LEN: nat := 32
  const ROOT_ID: nat := 1
  const MAX_CPUS: nat := 64

  const PLAIN := Flags(false, false, false)

  /** sysfs_is_class_dir(), kext/sysfs_vnops.c:116-122. */
  predicate IsClassDir(node: Node) {
    node.flags.dynamic && node.kind == Dir && node.instance != CLASS_NONE
  }

  /** None of the nodes from lo to hi is taken for a class directory. */
  ghost predicate NoClassDirs(cells: map<nat, Node>, lo: nat, hi: nat) {
    forall a {:trigger cells[a]} :: a in cells && lo <= a < hi ==> !IsClassDir(cells[a])
  }

  /** None of the nodes from lo to hi is a symlink marker. */
  ghost predicate NoLinks(cells: map<nat, Node>, lo: nat, hi: nat) {
    forall a {:trigger cells[a]} :: a in cells && lo <= a < hi ==> cells[a].kind != Link
  }

  /** Base ids are handed out in the order of creation, from a 16-bit counter. */
  ghost predicate IdsInOrder(cells: map<nat, Node>, n: nat, firstId: nat) {
    forall a {:trigger cells[a]} :: a in cells && a < n ==>
      cells[a].baseId == if a == 0 then ROOT_ID else IdAt(firstId, a - 1)
  }

  /** The k-th id from the 16-bit counter. */
  function IdAt(firstId: nat, k: nat): nat {
    (firstId + k) % 0x10000
  }

  function Bumped(id: nat): nat {
    (id + 1) % 0x10000
  }

  lemma NextId(firstId: nat, k: nat)
    ensures Bumped(IdAt(firstId, k)) == IdAt(firstId, k + 1)
  {
  }

  lemma IdsGrow(cells: map<nat, Node>, cells': map<nat, Node>, n: nat, firstId: nat, p: nat, leaf: Node)
    requires IdsInOrder(cells, n, firstId) && p in cells && n > 0 && leaf.baseId == IdAt(firstId, n - 1)
    requires cells' == cells[n := leaf][p := cells[p].(children := cells[p].children + [n])] && p < n
    ensures IdsInOrder(cells', n + 1, firstId)
  {
  }

  function Propagated(flags: Flags, parent: Node): Flags {
    flags.(dynamic := flags.dynamic || parent.flags.dynamic)
  }

  /** A directory with nothing in it yet. */
  function NewDirectory(name: string, flags: Flags, instance: nat): Spec {
    Spec(Strlcpy(name, NAME_LEN), Dir, flags, instance, Dots(flags.dynamic))
  }

  /** cpuN before its topology. */
  function CpuStart(c: nat): Spec {
    var t := NewDirectory("cpu" + Decimal(c), Flags(true, false, false), c);
    t.(kids := t.kids + [FileSpec("online", true, c)])
  }

  /** How many nodes a cpuN makes. */
  const CPU_NODES: nat := 11

  ghost predicate ChildrenWithin(node: Node, lo: nat, hi: nat) {
    forall k :: 0 <= k < |node.children| ==> lo <= node.children[k] < hi
  }

  lemma KidsWithin(cells: map<nat, Node>, n: nat, budget: seq<nat>, a: nat, lo: nat)
    requires Planted(cells, n, budget) && lo <= a < n
    ensures ChildrenWithin(cells[a], lo, n)
  {
    assert Branch(cells, n, budget, a);
  }

  /** cpuN and its topology directory: below /sys/devices, so dynamic, with the CPU's number for an instance. */
  ghost predicate CpuAt(cells: map<nat, Node>, p: nat, node: nat, c: nat) {
    && node in cells && node + 4 in cells
    && NoClassDirs(cells, node + 1, node + 4) && NoClassDirs(cells, node + 5, node + CPU_NODES)
    && cells[node].kind == Dir && cells[node].name == Strlcpy("cpu" + Decimal(c), NAME_LEN)
    && cells[node].parent == Some(p) && cells[node].instance == c && cells[node].flags.dynamic
    && NoLinks(cells, node, node + CPU_NODES) && ChildrenWithin(cells[node], node, node + CPU_NODES)
    && ChildrenWithin(cells[node + 4], node, node + CPU_NODES)
    && cells[node + 4].kind == Dir && cells[node + 4].name == "topology" && cells[node + 4].parent == Some(node)
    && cells[node + 4].instance == c && cells[node + 4].flags.dynamic
  }

  function Cpus(ncpu: nat): nat {
    if ncpu < MAX_CPUS then ncpu else MAX_CPUS
  }

  /** Where cpuN is, for the directory `cpu`: after its "." and ".." and five files. */
  function CpuSlot(node: nat, c: nat): nat {
    node + 8 + CPU_NODES * c
  }

  ghost predicate AllCpus(cells: map<nat, Node>, node: nat, m: nat) {
    forall c: nat {:trigger CpuSlot(node, c)} :: c < m ==> CpuAt(cells, node, CpuSlot(node, c), c)
  }

  /** Nodes that are older than the new cpuN stay as they are. */
  lemma CpusStay(before: map<nat, Node>, after: map<nat, Node>, node: nat, c: nat, n: nat)
    requires AllCpus(before, node, c) && Kept(before, after, node) && CpuAt(after, node, CpuSlot(node, c), c)
    requires forall a: nat {:trigger a in before} :: a in before <==> a < CpuSlot(node, c)
    ensures AllCpus(after, node, c + 1)
  {
    forall k: nat | k < c ensures CpuAt(after, node, CpuSlot(node, k), k) {
      assert CpuAt(before, node, CpuSlot(node, k), k);
      assert CpuSlot(node, k) + CPU_NODES <= CpuSlot(node, c);
    }
  }

  /** Lines 153-161. */
  const CLASSES: seq<(string, nat)> := [("net", CLASS_NET), ("block", CLASS_BLOCK), ("tty", CLASS_TTY),
                                        ("power_supply", CLASS_POWER)]

  /** Where the i-th class directory is, for the directory `class`: after its "." and "..". */
  function ClassSlot(node: nat, i: nat): nat {
    node + 3 + 4 * i
  }

  ghost predicate AllClasses(cells: map<nat, Node>, node: nat, classes: seq<(string, nat)>, m: nat)
    requires m <= |classes|
  {
    forall i: nat {:trigger ClassSlot(node, i)} :: i < m ==>
      ClassAt(cells, node, ClassSlot(node, i), classes[i].0, classes[i].1)
  }

  lemma ClassesStay(before: map<nat, Node>, after: map<nat, Node>, node: nat, classes: seq<(string, nat)>, m: nat)
    requires m < |classes| && AllClasses(before, node, classes, m) && Kept(before, after, node)
    requires ClassAt(after, node, ClassSlot(node, m), classes[m].0, classes[m].1)
    requires forall a: nat {:trigger a in before} :: a in before <==> a < ClassSlot(node, m)
    ensures AllClasses(after, node, classes, m + 1)
  {
    forall i: nat | i < m ensures ClassAt(after, node, ClassSlot(node, i), classes[i].0, classes[i].1) {
      assert ClassAt(before, node, ClassSlot(node, i), classes[i].0, classes[i].1);
      assert ClassSlot(node, i) + 4 <= ClassSlot(node, m);
    }
  }

  /** The directory `class` and the class directories below it. */
  ghost predicate ClassesAt(cells: map<nat, Node>, node: nat) {
    node in cells && cells[node].name == "class" && cells[node].kind == Dir &&
    NoClassDirs(cells, node, node + 3) && AllClasses(cells, node, CLASSES, |CLASSES|)
  }

  ghost predicate ClassAt(cells: map<nat, Node>, p: nat, node: nat, name: string, classId: nat) {
    node in cells && IsClassDir(cells[node]) && cells[node].name == name && cells[node].parent == Some(p) &&
    cells[node].instance == classId && !cells[node].flags.modules && Marked(cells, node) &&
    NoClassDirs(cells, node + 1, node + 4)
  }

  /** The third child, after "." and "..", is the one symlink marker. */
  ghost predicate Marked(cells: map<nat, Node>, node: nat) {
    node in cells && cells[node].children == [node + 1, node + 2, node + 3] && NoLinks(cells, node + 1, node + 3) &&
    node + 3 in cells && cells[node + 3].kind == Link && cells[node + 3].name == "__member__"
  }

  /** /sys/block is a class directory for whole disks; none is in the rest of what comes before /sys/class. */
  ghost predicate BlockAndBus(cells: map<nat, Node>) {
    NoClassDirs(cells, 0, 3) && ClassAt(cells, 0, 3, "block", CLASS_BLOCK) && cells[3].flags.wholeOnly &&
    NoClassDirs(cells, 7, 10)
  }

  /** Before /sys/devices: /sys/block and the four classes, and no other. */
  ghost predicate FrontClasses(cells: map<nat, Node>) {
    BlockAndBus(cells) && ClassesAt(cells, 10) && cells[10].parent == Some(0) && NoClassDirs(cells, 29, 38)
  }

  /** /sys/devices has one static child. */
  ghost predicate OnlySystem(cells: map<nat, Node>, dev: nat) {
    dev in cells && cells[dev].children == [dev + 1] && dev + 1 in cells && cells[dev + 1].name == "system"
  }

  /** No child of the root has that name. */
  ghost predicate NoneNamed(cells: map<nat, Node>, name: string) {
    0 in cells &&
    forall k :: 0 <= k < |cells[0].children| ==>
      cells[0].children[k] in cells && cells[cells[0].children[k]].name != name
  }

  /** Of the root's children the k-th is the first of that name. */
  ghost predicate FirstOfName(cells: map<nat, Node>, k: nat, name: string) {
    0 in cells && k < |cells[0].children| && cells[0].children[k] in cells &&
    cells[cells[0].children[k]].name == name &&
    forall j :: 0 <= j < k ==> cells[0].children[j] in cells && cells[cells[0].children[j]].name != name
  }

  /** The root gets a child of another name. */
  lemma StillNoneNamed(before: map<nat, Node>, after: map<nat, Node>, n: nat, budget: seq<nat>, node: nat, name: string)
    requires Planted(before, n, budget) && n > 0 && NoneNamed(before, name) && Kept(before, after, 0)
    requires 0 in after && after[0].children == before[0].children + [node] && node in after && after[node].name != name
    ensures NoneNamed(after, name)
  {
    assert Branch(before, n, budget, 0);
  }

  /** The root gets its first child of that name. */
  lemma NowNamed(before: map<nat, Node>, after: map<nat, Node>, n: nat, budget: seq<nat>, node: nat, name: string)
    requires Planted(before, n, budget) && n > 0 && NoneNamed(before, name) && Kept(before, after, 0)
    requires 0 in after && after[0].children == before[0].children + [node] && node in after && after[node].name == name
    ensures FirstOfName(after, |before[0].children|, name)
  {
    assert Branch(before, n, budget, 0);
  }

  /** Children that come later do not matter. */
  lemma StillNamed(before: map<nat, Node>, after: map<nat, Node>, n: nat, budget: seq<nat>, k: nat, name: string)
    requires Planted(before, n, budget) && n > 0 && FirstOfName(before, k, name) && Kept(before, after, 0)
    ensures FirstOfName(after, k, name) && after[0].children[k] == before[0].children[k]
  {
    assert Branch(before, n, budget, 0);
  }

  lemma OneMoreFile(names: seq<string>, dynamic: bool, instance: nat, i: nat, kids: seq<Spec>)
    requires i < |names|
    ensures kids + Files(names[..i], dynamic, instance) + [FileSpec(names[i], dynamic, instance)] ==
            kids + Files(names[..i + 1], dynamic, instance)
  {
    assert names[..i + 1][..i] == names[..i];
  }

  lemma SystemKids(a: Spec, b: Spec)
    ensures Folder("system", true, [a]).kids + [b] == Folder("system", true, [a, b]).kids
  {
  }

  /** The class directories of a table. */
  function ClassFolders(classes: seq<(string, nat)>): (folders: seq<Spec>)
    ensures |folders| == |classes|
  {
    if classes == [] then []
    else
      var last := classes[|classes| - 1];
      ClassFolders(classes[..|classes| - 1]) + [ClassFolder(last.0, false, last.1)]
  }

  lemma OneMoreClass(classes: seq<(string, nat)>, i: nat, kids: seq<Spec>)
    requires i < |classes|
    ensures kids + ClassFolders(classes[..i]) + [ClassFolder(classes[i].0, false, classes[i].1)] ==
            kids + ClassFolders(classes[..i + 1])
  {
    assert classes[..i + 1][..i] == classes[..i];
  }

  lemma FourClasses(classes: seq<(string, nat)>)
    requires |classes| == 4
    ensures ClassFolders(classes) ==
            [ClassFolder(classes[0].0, false, classes[0].1), ClassFolder(classes[1].0, false, classes[1].1),
             ClassFolder(classes[2].0, false, classes[2].1), ClassFolder(classes[3].0, false, classes[3].1)]
  {
    assert classes[..3][..2] == classes[..2] && classes[..2][..1] == classes[..1] && classes[..1][..0] == [];
    assert ClassFolders(classes[..1]) == [ClassFolder(classes[0].0, false, classes[0].1)];
    assert ClassFolders(classes[..2]) == ClassFolders(classes[..1]) + [ClassFolder(classes[1].0, false, classes[1].1)];
    assert ClassFolders(classes[..3]) == ClassFolders(classes[..2]) + [ClassFolder(classes[2].0, false, classes[2].1)];
  }

  /** The top-level directories before and after /sys/devices. */
  function FrontRow(): seq<Spec> {
    [ClassFolder("block", true, 2), Folder("bus", false, []), Classes(), Dev()]
  }

  function BackRow(): seq<Spec> {
    [Folder("firmware", false, []), Folder("fs", false, []), Folder("hypervisor", false, []), Kernel(), Modules(),
     Folder("power", false, [])]
  }

  lemma BackRowIs(kids: seq<Spec>)
    ensures kids + [Folder("firmware", false, [])] + [Folder("fs", false, [])] + [Folder("hypervisor", false, [])] +
            [Kernel(), Modules(), Folder("power", false, [])] == kids + BackRow()
  {
  }

  /** The device node with system as its one child. */
  lemma {:induction false} DevicesLook(before: map<nat, Node>, after: map<nat, Node>, n: nat, budget: seq<nat>, p: nat,
                                       cpus: nat)
    requires Planted(before, n, budget) && p in before && Kept(before, after, p) && p in after
    requires Matches(before, p, Spec("devices", Device, Flags(true, false, false), 0, []))
    requires after[p].children == before[p].children + [n]
    requires Matches(after, n, Folder("system", true, [NumaNodes(), CpuFolder(cpus)]))
    ensures Matches(after, p, Devices(cpus))
  {
    Append(before, after, n, budget, p, Spec("devices", Device, Flags(true, false, false), 0, []), n,
           Folder("system", true, [NumaNodes(), CpuFolder(cpus)]));
  }

  lemma MoreCpus(n: nat)
    ensures CpuFolder(0).kids + EachCpu(n) == CpuFolder(n).kids
  {
  }

  class Builder {
    var cells: map<nat, Node>
    var count: nat
    var nextId: nat
    ghost var budget: seq<nat>
    ghost const firstId: nat

    ghost predicate Valid()
      reads this
    {
      count > 0 && Planted(cells, count, budget) && IdsInOrder(cells, count, firstId) &&
      nextId == IdAt(firstId, count - 1)
    }

    /** p has k more children, the new nodes start at `node`, and every older node is as it was. */
    twostate predicate Grew(p: nat, node: nat, k: nat)
      reads this
    {
      Valid() && node == old(count) < count && Kept(old(cells), cells, p) &&
      p in cells && p in old(cells) && |cells[p].children| == |old(cells)[p].children| + k && old(budget) <= budget &&
      (k == 1 ==> cells[p].children == old(cells)[p].children + [node])
    }

    /** Room for one more child whose subtree needs b entries of stack. */
    ghost predicate Affords(p: nat, b: nat)
      reads this
    {
      p < count && p < |budget| && p in cells && |cells[p].children| + Max(1, b) <= budget[p]
    }

    /** The root, with its "." and "..". */
    constructor (nextId: nat, ghost b: nat)
      requires nextId < 0x10000 && b >= 2
      ensures Valid() && count == 3 && cells[0].children == [1, 2] && budget == [b, 0, 0] && NoClassDirs(cells, 0, 3)
      ensures cells[0] == Node(Root, "/", ROOT_ID, PLAIN, 0, None, [1, 2]) && NoneNamed(cells, "devices")
      ensures Matches(cells, 0, Spec("/", Root, PLAIN, 0, Dots(false)))
    {
      this.nextId := nextId;
      firstId := nextId;
      count := 1;
      cells := map[0 := Node(Root, "/", ROOT_ID, PLAIN, 0, None, [])];
      budget := [b];
      new;
      assert Linked(cells, 0) && Branch(cells, 1, budget, 0);
      var dot := AddNode(0, ".", DirThis, PLAIN, 0);
      var dotdot := AddNode(0, "..", DirParent, PLAIN, 0);
    }

    method AddNode(p: nat, name: string, kind: Kind, flags: Flags, ghost b: nat) returns (node: nat)
      requires Valid() && kind != Root && Affords(p, b)
      requires (kind == DirThis ==> name == ".") && (kind == DirParent ==> name == "..")
      modifies this
      ensures Grew(p, node, 1) && count == node + 1 && budget == old(budget) + [b]
      ensures cells[p].children == old(cells)[p].children + [node]
      ensures cells[node] == Node(kind, Strlcpy(name, NAME_LEN), old(nextId), Propagated(flags, old(cells)[p]), 0,
                                  Some(p), [])
    {
      node := count;
      var leaf := Node(kind, Strlcpy(name, NAME_LEN), nextId, Propagated(flags, cells[p]), 0, Some(p), []);
      ghost var grown := cells[node := leaf][p := cells[p].(children := cells[p].children + [node])];
      PlantLeaf(cells, grown, count, budget, p, leaf, b);
      IdsGrow(cells, grown, count, firstId, p, leaf);
      NextId(firstId, count - 1);
      cells := cells[node := leaf];
      cells := cells[p := cells[p].(children := cells[p].children + [node])];
      count := count + 1;
      nextId := Bumped(nextId);
      budget := budget + [b];
    }

    method SetInstance(node: nat, instance: nat)
      requires Valid() && node < count
      modifies this`cells
      ensures Valid() && cells == old(cells)[node := old(cells)[node].(instance := instance)]
    {
      PlantedStays(cells, cells[node := cells[node].(instance := instance)], count, budget, node, instance);
      cells := cells[node := cells[node].(instance := instance)];
    }

    /** The "." and ".." of a new directory. */
    method AddDots(node: nat, dynamic: bool)
      requires Valid() && Affords(node, 0) && cells[node].children == [] && budget[node] >= 2
      modifies this
      ensures Grew(node, old(count), 2) && count == old(count) + 2 && budget == old(budget) + [0, 0]
      ensures cells[node].children == [old(count), old(count) + 1]
      ensures Matches(cells, old(count), Dots(dynamic || old(cells)[node].flags.dynamic)[0])
      ensures Matches(cells, old(count) + 1, Dots(dynamic || old(cells)[node].flags.dynamic)[1])
      ensures NoClassDirs(cells, old(count), count) && NoLinks(cells, old(count), count)
    {
      var dots := PLAIN.(dynamic := dynamic);
      var dot := AddNode(node, ".", DirThis, dots, 0);
      var dotdot := AddNode(node, "..", DirParent, dots, 0);
    }

    /** add_directory(): the node, then its "." and "..". */
    method AddDirectory(p: nat, name: string, flags: Flags, ghost b: nat) returns (node: nat)
      requires Valid() && Affords(p, b) && b >= 2
      modifies this
      ensures Grew(p, node, 1) && count == node + 3 && budget == old(budget) + [b, 0, 0]
      ensures node in cells
      ensures cells[node] == Node(Dir, Strlcpy(name, NAME_LEN), old(nextId), Propagated(flags, old(cells)[p]), 0,
                                  Some(p), [node + 1, node + 2])
      ensures Matches(cells, node, NewDirectory(name, Propagated(flags, old(cells)[p]), 0))
      ensures NoClassDirs(cells, node, count) && NoLinks(cells, node, count)
    {
      node := AddNode(p, name, Dir, flags, b);
      AddDots(node, flags.dynamic);
    }

    /** add_file(). */
    method AddFile(p: nat, name: string, instance: nat)
      requires Valid() && Affords(p, 0)
      modifies this
      ensures Grew(p, old(count), 1) && count == old(count) + 1 && NoClassDirs(cells, old(count), count)
      ensures NoLinks(cells, old(count), count)
      ensures Matches(cells, old(count), FileSpec(Strlcpy(name, NAME_LEN), old(cells)[p].flags.dynamic, instance))
    {
      var node := AddNode(p, name, File, PLAIN, 0);
      if instance != 0 {
        SetInstance(node, instance);
      }
    }

    /** A row of add_file() calls, in a directory that looks like t. */
    method AddFiles(p: nat, names: seq<string>, instance: nat, ghost t: Spec)
      requires Valid() && p < count && p < |budget| && p in cells && |cells[p].children| + |names| <= budget[p]
      requires Matches(cells, p, t) && forall i :: 0 <= i < |names| ==> |names[i]| < NAME_LEN
      modifies this
      ensures Grew(p, old(count), |names|) || names == []
      ensures Valid() && count == old(count) + |names| && NoClassDirs(cells, old(count), count)
      ensures NoLinks(cells, old(count), count)
      ensures Matches(cells, p, t.(kids := t.kids + Files(names, t.flags.dynamic, instance)))
    {
      assert names[..0] == [] && t.kids + [] == t.kids;
      for i := 0 to |names|
        invariant Valid() && count == old(count) + i && NoClassDirs(cells, old(count), count)
        invariant NoLinks(cells, old(count), count)
        invariant i > 0 ==> Grew(p, old(count), i)
        invariant i == 0 ==> cells == old(cells) && budget == old(budget)
        invariant Matches(cells, p, t.(kids := t.kids + Files(names[..i], t.flags.dynamic, instance)))
      {
        AddOneFile(p, names, instance, i, t);
      }
      assert names[..|names|] == names;
    }

    /** The i-th of them. */
    method AddOneFile(p: nat, names: seq<string>, instance: nat, i: nat, ghost t: Spec)
      requires Valid() && Affords(p, 0) && i < |names| && |names[i]| < NAME_LEN
      requires Matches(cells, p, t.(kids := t.kids + Files(names[..i], t.flags.dynamic, instance)))
      modifies this
      ensures Grew(p, old(count), 1) && count == old(count) + 1 && NoClassDirs(cells, old(count), count)
      ensures NoLinks(cells, old(count), count)
      ensures Matches(cells, p, t.(kids := t.kids + Files(names[..i + 1], t.flags.dynamic, instance)))
    {
      ghost var before, n, b := cells, count, budget;
      ghost var some := t.(kids := t.kids + Files(names[..i], t.flags.dynamic, instance));
      AddFile(p, names[i], instance);
      Append(before, cells, n, b, p, some, n, FileSpec(names[i], t.flags.dynamic, instance));
      OneMoreFile(names, t.flags.dynamic, instance, i, t.kids);
    }

    /** A directory with nothing in it. */
    method AddEmpty(p: nat, name: string)
      requires Valid() && Affords(p, 2)
      modifies this
      ensures Grew(p, old(count), 1) && count == old(count) + 3 && NoClassDirs(cells, old(count), count)
      ensures old(count) in cells && cells[old(count)].name == Strlcpy(name, NAME_LEN)
      ensures Matches(cells, old(count), Folder(Strlcpy(name, NAME_LEN), old(cells)[p].flags.dynamic, []))
    {
      var node := AddDirectory(p, name, PLAIN, 2);
      assert Dots(old(cells)[p].flags.dynamic) + [] == Dots(old(cells)[p].flags.dynamic);
    }

    /** A class directory: its class in ssn_instance, and the marker its members are presented through. */
    method AddClass(p: nat, name: string, wholeOnly: bool, classId: nat) returns (node: nat)
      requires Valid() && Affords(p, 3) && classId != CLASS_NONE
      modifies this
      ensures Grew(p, node, 1) && count == node + 4 && NoClassDirs(cells, node + 1, count)
      ensures node in cells && IsClassDir(cells[node]) && cells[node].instance == classId
      ensures cells[node].name == Strlcpy(name, NAME_LEN)
      ensures cells[node].parent == Some(p) && cells[node].flags.wholeOnly == wholeOnly && !cells[node].flags.modules
      ensures Marked(cells, node) && Matches(cells, node, ClassFolder(Strlcpy(name, NAME_LEN), wholeOnly, classId))
    {
      node := AddNumbered(p, name, Flags(true, wholeOnly, false), classId, 3);
      ghost var before, n, b := cells, count, budget;
      var link := AddNode(node, "__member__", Link, Flags(true, false, false), 0);
      Append(before, cells, n, b, node, NewDirectory(name, Flags(true, wholeOnly, false), classId), link,
             Spec("__member__", Link, Flags(true, false, false), 0, []));
    }

    /** Lines 221-231 and 331-345: hugepages/hugepages-2048kB with its counters. */
    method AddHugepages(p: nat, counters: seq<string>)
      requires Valid() && Affords(p, 4 + |counters|) && counters != []
      requires forall i :: 0 <= i < |counters| ==> |counters[i]| < NAME_LEN
      modifies this
      ensures Grew(p, old(count), 1) && count == old(count) + 6 + |counters| && NoClassDirs(cells, old(count), count)
      ensures Matches(cells, old(count), Hugepages(old(cells)[p].flags.dynamic, counters))
    {
      ghost var flags := Propagated(PLAIN, cells[p]);
      var pool := AddDirectory(p, "hugepages", PLAIN, 4 + |counters|);
      ghost var before, n, b := cells, count, budget;
      var size := AddDirectory(pool, "hugepages-2048kB", PLAIN, 2 + |counters|);
      AddFiles(size, counters, 0, NewDirectory("hugepages-2048kB", flags, 0));
      Append(before, cells, n, b, pool, NewDirectory("hugepages", flags, 0), size,
             Folder("hugepages-2048kB", flags.dynamic, Files(counters, flags.dynamic, 0)));
    }

    /** A directory, its hugepages, and then a row of files. */
    method AddHugepagesAndFiles(node: nat, counters: seq<string>, names: seq<string>, ghost t: Spec)
      requires Valid() && Affords(node, 4 + |counters|) && |cells[node].children| + 1 + |names| <= budget[node]
      requires counters != [] && names != [] && Matches(cells, node, t)
      requires forall i :: 0 <= i < |counters| ==> |counters[i]| < NAME_LEN
      requires forall i :: 0 <= i < |names| ==> |names[i]| < NAME_LEN
      modifies this
      ensures Grew(node, old(count), 1 + |names|) && count == old(count) + 6 + |counters| + |names|
      ensures NoClassDirs(cells, old(count), count)
      ensures Matches(cells, node, t.(kids := t.kids + [Hugepages(t.flags.dynamic, counters)] +
                                              Files(names, t.flags.dynamic, 0)))
    {
      ghost var before, n, b := cells, count, budget;
      AddHugepages(node, counters);
      Append(before, cells, n, b, node, t, n, Hugepages(t.flags.dynamic, counters));
      AddFiles(node, names, 0, t.(kids := t.kids + [Hugepages(t.flags.dynamic, counters)]));
    }

    /** Lines 206-242: node0. */
    method AddNumaNode(p: nat)
      requires Valid() && Affords(p, 9) && cells[p].flags.dynamic
      modifies this
      ensures Grew(p, old(count), 1) && count == old(count) + 17 && NoClassDirs(cells, old(count), count)
      ensures Matches(cells, old(count), Node0())
    {
      var node0 := AddDirectory(p, "node0", PLAIN, 9);
      ghost var t := NewDirectory("node0", Flags(true, false, false), 0);
      AddHugepagesAndFiles(node0, ["nr_hugepages", "free_hugepages", "surplus_hugepages"],
                           ["cpulist", "cpumap", "meminfo", "distance", "numastat"], t);
      assert Node0().kids == t.kids + [Node0().kids[2]] + Node0().kids[3..];
    }

    /** Lines 204-206: system/node with node0. */
    method AddNumaFolder(p: nat) returns (nodes: nat)
      requires Valid() && Affords(p, 11) && cells[p].flags.dynamic
      modifies this
      ensures Grew(p, nodes, 1) && count == nodes + 20 && NoClassDirs(cells, nodes, count)
      ensures nodes in cells && |cells[nodes].children| == 3 && nodes < |budget| && budget[nodes] == 11
      ensures Matches(cells, nodes, Folder("node", true, [Node0()]))
    {
      nodes := AddDirectory(p, "node", PLAIN, 11);
      ghost var before, n, b := cells, count, budget;
      AddNumaNode(nodes);
      Append(before, cells, n, b, nodes, NewDirectory("node", Flags(true, false, false), 0), n, Node0());
    }

    method AddNumaNodes(p: nat)
      requires Valid() && Affords(p, 11) && cells[p].flags.dynamic
      modifies this
      ensures Grew(p, old(count), 1) && count == old(count) + 24 && NoClassDirs(cells, old(count), count)
      ensures Matches(cells, old(count), NumaNodes())
    {
      var nodes := AddNumaFolder(p);
      AddFiles(nodes, ["online", "possible", "has_cpu", "has_memory"], 0, Folder("node", true, [Node0()]));
      assert NumaNodes().kids == Dots(true) + [Node0()] + NumaNodes().kids[3..];
    }

    /** A directory that carries an instance number. */
    method AddNumbered(p: nat, name: string, flags: Flags, instance: nat, ghost b: nat) returns (node: nat)
      requires Valid() && Affords(p, b) && b >= 2
      modifies this
      ensures Grew(p, node, 1) && count == node + 3 && NoClassDirs(cells, node + 1, count)
      ensures NoLinks(cells, node, count)
      ensures node in cells && cells[node].children == [node + 1, node + 2] && node < |budget| && budget[node] == b
      ensures cells[node].kind == Dir && cells[node].name == Strlcpy(name, NAME_LEN)
      ensures cells[node].instance == instance &&
              cells[node].parent == Some(p) && cells[node].flags == Propagated(flags, old(cells)[p])
      ensures Matches(cells, node, NewDirectory(name, Propagated(flags, old(cells)[p]), instance))
    {
      node := AddDirectory(p, name, flags, b);
      ghost var before := cells;
      SetInstance(node, instance);
      Number(before, cells, count, budget, node, NewDirectory(name, Propagated(flags, old(cells)[p]), 0), instance);
    }

    /** Lines 285-300: the topology directory of one cpuN. */
    method AddTopology(p: nat, c: nat) returns (node: nat)
      requires Valid() && Affords(p, 6) && cells[p].flags.dynamic
      modifies this
      ensures Grew(p, node, 1) && count == node + 7 && NoClassDirs(cells, node + 1, count)
      ensures NoLinks(cells, node, count)
      ensures node in cells && cells[node].kind == Dir && cells[node].name == "topology" && cells[node].instance == c &&
              cells[node].parent == Some(p) && cells[node].flags.dynamic
      ensures Matches(cells, node, Topology(c))
    {
      node := AddNumbered(p, "topology", PLAIN, c, 6);
      AddFiles(node, ["core_id", "physical_package_id", "thread_siblings_list", "core_siblings_list"], c,
               NewDirectory("topology", Flags(true, false, false), c));
    }

    method AddCpuNode(p: nat, c: nat) returns (node: nat)
      requires Valid() && Affords(p, 9) && cells[p].flags.dynamic
      modifies this
      ensures Grew(p, node, 1) && count == node + 4 && NoClassDirs(cells, node + 1, count)
      ensures NoLinks(cells, node, count)
      ensures node in cells && |cells[node].children| == 3 && node < |budget| && budget[node] == 9
      ensures cells[node].kind == Dir && cells[node].name == Strlcpy("cpu" + Decimal(c), NAME_LEN)
      ensures cells[node].instance == c &&
              cells[node].parent == Some(p) && cells[node].flags.dynamic
      ensures Matches(cells, node, CpuStart(c))
    {
      node := AddNumbered(p, "cpu" + Decimal(c), PLAIN, c, 9);
      ghost var before, n, b := cells, count, budget;
      AddFile(node, "online", c);
      Append(before, cells, n, b, node, NewDirectory("cpu" + Decimal(c), Flags(true, false, false), c), n,
             FileSpec("online", true, c));
    }

    method AddCpu(p: nat, c: nat) returns (node: nat)
      requires Valid() && Affords(p, 9) && cells[p].flags.dynamic
      modifies this
      ensures Grew(p, node, 1) && count == node + CPU_NODES && CpuAt(cells, p, node, c) && Matches(cells, node, Cpu(c))
    {
      node := AddCpuNode(p, c);
      ghost var before, n, b := cells, count, budget;
      var topology := AddTopology(node, c);
      Append(before, cells, n, b, node, CpuStart(c), topology, Topology(c));
      assert CpuStart(c).kids + [Topology(c)] == Cpu(c).kids;
      KidsWithin(cells, count, budget, node, node);
      KidsWithin(cells, count, budget, topology, node);
    }

    /** Lines 272-301: a cpuN for each CPU up to the limit. */
    method AddEachCpu(node: nat, ncpu: nat, ghost t: Spec)
      requires Valid() && node < count == CpuSlot(node, 0) && node < |budget| && node in cells
      requires cells[node].flags.dynamic && Matches(cells, node, t)
      requires |cells[node].children| + MAX_CPUS + 8 <= budget[node]
      modifies this
      ensures Valid() && Kept(old(cells), cells, node) && old(budget) <= budget && count == CpuSlot(node, Cpus(ncpu))
      ensures AllCpus(cells, node, Cpus(ncpu)) && Matches(cells, node, t.(kids := t.kids + EachCpu(Cpus(ncpu))))
    {
      assert t.kids + [] == t.kids;
      for c := 0 to Cpus(ncpu)
        invariant Valid() && Kept(old(cells), cells, node) && old(budget) <= budget && count == CpuSlot(node, c)
        invariant AllCpus(cells, node, c) && Matches(cells, node, t.(kids := t.kids + EachCpu(c)))
        invariant |cells[node].children| == |old(cells)[node].children| + c
      {
        AddNextCpu(node, c, t);
      }
    }

    method AddNextCpu(node: nat, c: nat, ghost t: Spec)
      requires Valid() && node < count == CpuSlot(node, c) && Affords(node, 9) && cells[node].flags.dynamic
      requires AllCpus(cells, node, c) && Matches(cells, node, t.(kids := t.kids + EachCpu(c)))
      modifies this
      ensures Grew(node, old(count), 1) && count == CpuSlot(node, c + 1)
      ensures AllCpus(cells, node, c + 1) && Matches(cells, node, t.(kids := t.kids + EachCpu(c + 1)))
    {
      ghost var before, n, b := cells, count, budget;
      var cpu := AddCpu(node, c);
      CpusStay(before, cells, node, c, count);
      Append(before, cells, n, b, node, t.(kids := t.kids + EachCpu(c)), cpu, Cpu(c));
      assert t.kids + EachCpu(c) + [Cpu(c)] == t.kids + EachCpu(c + 1);
    }

    /** Lines 257-267: system/cpu without its cpuN. */
    method AddCpuFolder(p: nat) returns (node: nat)
      requires Valid() && Affords(p, 79) && cells[p].flags.dynamic
      modifies this
      ensures Grew(p, node, 1) && count == node + 8 && NoClassDirs(cells, node, node + 8)
      ensures node in cells && cells[node].flags.dynamic && |cells[node].children| == 7
      ensures node < |budget| && budget[node] == 79 && Matches(cells, node, CpuFolder(0))
    {
      node := AddDirectory(p, "cpu", PLAIN, 79);
      AddFiles(node, ["online", "possible", "present", "offline", "kernel_max"], 0,
               NewDirectory("cpu", Flags(true, false, false), 0));
      assert CpuFolder(0).kids == Dots(true) + CpuFolder(0).kids[2..];
    }

    /** Lines 257-301: system/cpu. */
    method AddCpus(p: nat, ncpu: nat) returns (node: nat)
      requires Valid() && Affords(p, 79) && cells[p].flags.dynamic
      modifies this
      ensures Grew(p, node, 1) && count == CpuSlot(node, Cpus(ncpu)) && NoClassDirs(cells, node, node + 8)
      ensures AllCpus(cells, node, Cpus(ncpu)) && Matches(cells, node, CpuFolder(Cpus(ncpu)))
    {
      node := AddCpuFolder(p);
      AddEachCpu(node, ncpu, CpuFolder(0));
      MoreCpus(Cpus(ncpu));
    }

    /** Lines 202-243: system with its NUMA nodes. */
    method AddSystemFolder(p: nat) returns (system: nat)
      requires Valid() && Affords(p, 82) && cells[p].flags.dynamic
      modifies this
      ensures Grew(p, system, 1) && count == system + 27 && NoClassDirs(cells, system, count)
      ensures system in cells && |cells[system].children| == 3 && cells[system].flags.dynamic
      ensures system < |budget| && budget[system] == 82 && Matches(cells, system, Folder("system", true, [NumaNodes()]))
    {
      system := AddDirectory(p, "system", PLAIN, 82);
      ghost var before, n, b := cells, count, budget;
      AddNumaNodes(system);
      Append(before, cells, n, b, system, NewDirectory("system", Flags(true, false, false), 0), n, NumaNodes());
    }

    /** Lines 202-301: the system hierarchy below /sys/devices. */
    method AddSystem(p: nat, ncpu: nat) returns (cpus: nat)
      requires Valid() && Affords(p, 82) && cells[p].flags.dynamic
      modifies this
      ensures Grew(p, old(count), 1) && cpus == old(count) + 27 && count == CpuSlot(cpus, Cpus(ncpu))
      ensures NoClassDirs(cells, old(count), cpus + 8)
      ensures AllCpus(cells, cpus, Cpus(ncpu)) && old(count) in cells && cells[old(count)].name == "system"
      ensures Matches(cells, old(count), Folder("system", true, [NumaNodes(), CpuFolder(Cpus(ncpu))]))
    {
      var system := AddSystemFolder(p);
      ghost var before, n, b := cells, count, budget;
      cpus := AddCpus(system, ncpu);
      Append(before, cells, n, b, system, Folder("system", true, [NumaNodes()]), cpus, CpuFolder(Cpus(ncpu)));
      SystemKids(NumaNodes(), CpuFolder(Cpus(ncpu)));
    }

    method AddDevices(p: nat, ncpu: nat) returns (cpus: nat)
      requires Valid() && Affords(p, 82)
      modifies this
      ensures Grew(p, old(count), 1) && cpus == old(count) + 28 && count == CpuSlot(cpus, Cpus(ncpu))
      ensures NoClassDirs(cells, old(count), cpus + 8)
      ensures AllCpus(cells, cpus, Cpus(ncpu))
      ensures old(count) in cells && cells[old(count)].kind == Device && cells[old(count)].name == "devices"
      ensures cells[old(count)].flags.dynamic
      ensures OnlySystem(cells, old(count)) && Matches(cells, old(count), Devices(Cpus(ncpu)))
    {
      var devices := AddNode(p, "devices", Device, Flags(true, false, false), 82);
      ghost var before, n, b := cells, count, budget;
      cpus := AddSystem(devices, ncpu);
      DevicesLook(before, cells, n, b, devices, Cpus(ncpu));
    }

    /** Lines 162-172: the class directories, from the table. */
    method AddEachClass(node: nat, classes: seq<(string, nat)>, ghost t: Spec)
      requires Valid() && node < count == ClassSlot(node, 0) && node < |budget| && node in cells
      requires |cells[node].children| + |classes| + 2 <= budget[node] && Matches(cells, node, t)
      requires forall i :: 0 <= i < |classes| ==> classes[i].1 != CLASS_NONE && |classes[i].0| < NAME_LEN
      modifies this
      ensures Valid() && Kept(old(cells), cells, node) && old(budget) <= budget && count == ClassSlot(node, |classes|)
      ensures AllClasses(cells, node, classes, |classes|)
      ensures Matches(cells, node, t.(kids := t.kids + ClassFolders(classes)))
    {
      assert classes[..0] == [] && t.kids + [] == t.kids;
      for i := 0 to |classes|
        invariant Valid() && Kept(old(cells), cells, node) && old(budget) <= budget && count == ClassSlot(node, i)
        invariant AllClasses(cells, node, classes, i)
        invariant Matches(cells, node, t.(kids := t.kids + ClassFolders(classes[..i])))
        invariant |cells[node].children| == |old(cells)[node].children| + i
      {
        AddNextClass(node, classes, i, t);
      }
      assert classes[..|classes|] == classes;
    }

    method AddNextClass(node: nat, classes: seq<(string, nat)>, i: nat, ghost t: Spec)
      requires Valid() && i < |classes| && node < count == ClassSlot(node, i) && Affords(node, 3)
      requires classes[i].1 != CLASS_NONE && |classes[i].0| < NAME_LEN && AllClasses(cells, node, classes, i)
      requires Matches(cells, node, t.(kids := t.kids + ClassFolders(classes[..i])))
      modifies this
      ensures Grew(node, old(count), 1) && count == ClassSlot(node, i + 1) && AllClasses(cells, node, classes, i + 1)
      ensures Matches(cells, node, t.(kids := t.kids + ClassFolders(classes[..i + 1])))
    {
      ghost var before, n, b := cells, count, budget;
      var cd := AddClass(node, classes[i].0, false, classes[i].1);
      ClassesStay(before, cells, node, classes, i);
      Append(before, cells, n, b, node, t.(kids := t.kids + ClassFolders(classes[..i])), cd,
             ClassFolder(classes[i].0, false, classes[i].1));
      OneMoreClass(classes, i, t.kids);
    }

    /** Lines 151-172: /sys/class. */
    method AddClasses(p: nat) returns (node: nat)
      requires Valid() && Affords(p, 8) && !cells[p].flags.dynamic
      modifies this
      ensures Grew(p, node, 1) && count == node + 19 && ClassesAt(cells, node) && cells[node].parent == Some(p)
      ensures Matches(cells, node, Classes())
    {
      node := AddDirectory(p, "class", PLAIN, 8);
      AddEachClass(node, CLASSES, NewDirectory("class", PLAIN, 0));
      FourClasses(CLASSES);
    }

    /** Lines 177-179. */
    method AddDev(p: nat)
      requires Valid() && Affords(p, 5) && !cells[p].flags.dynamic
      modifies this
      ensures Grew(p, old(count), 1) && count == old(count) + 9 && NoClassDirs(cells, old(count), count)
      ensures old(count) in cells && cells[old(count)].name == "dev" && Matches(cells, old(count), Dev())
    {
      var dev := AddDirectory(p, "dev", PLAIN, 5);
      AddTwoEmpty(dev, "char", "block", NewDirectory("dev", PLAIN, 0));
      assert Dots(false) + [Folder("char", false, []), Folder("block", false, [])] == Dev().kids;
    }

    method AddTwoEmpty(node: nat, first: string, second: string, ghost t: Spec)
      requires Valid() && Affords(node, 3) && Matches(cells, node, t) && |first| < NAME_LEN && |second| < NAME_LEN
      modifies this
      ensures Grew(node, old(count), 2) && count == old(count) + 6 && NoClassDirs(cells, old(count), count)
      ensures Matches(cells, node, t.(kids := t.kids + [Folder(first, t.flags.dynamic, []),
                                                        Folder(second, t.flags.dynamic, [])]))
    {
      ghost var before, n, b := cells, count, budget;
      AddEmpty(node, first);
      ghost var t1 := t.(kids := t.kids + [Folder(first, t.flags.dynamic, [])]);
      Append(before, cells, n, b, node, t, n, Folder(first, t.flags.dynamic, []));
      before, n, b := cells, count, budget;
      AddEmpty(node, second);
      Append(before, cells, n, b, node, t1, n, Folder(second, t.flags.dynamic, []));
      assert t1.kids + [Folder(second, t.flags.dynamic, [])] ==
             t.kids + [Folder(first, t.flags.dynamic, []), Folder(second, t.flags.dynamic, [])];
    }

    /** Lines 316-319: /sys/module, with the marker every module is presented through. */
    method AddModules(p: nat)
      requires Valid() && Affords(p, 3) && !cells[p].flags.dynamic
      modifies this
      ensures Grew(p, old(count), 1) && count == old(count) + 4 && NoClassDirs(cells, old(count), count)
      ensures Matches(cells, old(count), Modules())
    {
      var modules := AddDirectory(p, "module", Flags(false, false, true), 3);
      ghost var before, n, b := cells, count, budget;
      var member := AddNode(modules, "__member__", Module, Flags(false, false, true), 0);
      Append(before, cells, n, b, modules, NewDirectory("module", Flags(false, false, true), 0), member,
             Spec("__member__", Module, Flags(false, false, true), 0, []));
    }

    /** Lines 329-345: /sys/kernel/mm. */
    method AddMemory(p: nat)
      requires Valid() && Affords(p, 11) && !cells[p].flags.dynamic
      modifies this
      ensures Grew(p, old(count), 1) && count == old(count) + 14 && NoClassDirs(cells, old(count), count)
      ensures Matches(cells, old(count), MemoryFolder())
    {
      var mm := AddDirectory(p, "mm", PLAIN, 11);
      ghost var before, n, b := cells, count, budget;
      AddHugepages(mm, ["nr_hugepages", "free_hugepages", "surplus_hugepages", "resv_hugepages",
                        "nr_overcommit_hugepages"]);
      Append(before, cells, n, b, mm, NewDirectory("mm", PLAIN, 0), n, MemoryFolder().kids[2]);
    }

    /** Lines 137-142. */
    method AddBlockAndBus(ghost t: Spec) returns (ghost u: Spec)
      requires Valid() && count == 3 && |cells[0].children| == 2 && budget[0] == 88 && NoClassDirs(cells, 0, 3)
      requires NoneNamed(cells, "devices") && Matches(cells, 0, t) && !t.flags.dynamic
      modifies this
      ensures Grew(0, 3, 2) && count == 10 && BlockAndBus(cells) && NoneNamed(cells, "devices")
      ensures u == t.(kids := t.kids + [ClassFolder("block", true, 2)] + [Folder("bus", false, [])])
      ensures Matches(cells, 0, u)
    {
      ghost var before := cells;
      var block := AddClass(0, "block", true, CLASS_BLOCK);
      StillNoneNamed(before, cells, 3, old(budget), block, "devices");
      Append(before, cells, 3, old(budget), 0, t, block, ClassFolder("block", true, 2));
      ghost var n, b, middle := count, budget, cells;
      AddEmpty(0, "bus");
      StillNoneNamed(middle, cells, n, b, n, "devices");
      u := t.(kids := t.kids + [ClassFolder("block", true, 2)]);
      Append(middle, cells, n, b, 0, u, n, Folder("bus", false, []));
      u := u.(kids := u.kids + [Folder("bus", false, [])]);
    }

    /** Lines 151-179. */
    method AddClassesAndDev(ghost t: Spec) returns (ghost u: Spec)
      requires Valid() && count == 10 && |cells[0].children| == 4 && budget[0] == 88 && NoneNamed(cells, "devices")
      requires Matches(cells, 0, t) && !t.flags.dynamic
      modifies this
      ensures Grew(0, 10, 2) && count == 38 && NoneNamed(cells, "devices")
      ensures ClassesAt(cells, 10) && cells[10].parent == Some(0) && NoClassDirs(cells, 29, 38)
      ensures u == t.(kids := t.kids + [Classes()] + [Dev()]) && Matches(cells, 0, u)
    {
      ghost var before := cells;
      var classes := AddClasses(0);
      StillNoneNamed(before, cells, 10, old(budget), classes, "devices");
      Append(before, cells, 10, old(budget), 0, t, classes, Classes());
      ghost var n, b, middle := count, budget, cells;
      AddDev(0);
      StillNoneNamed(middle, cells, n, b, n, "devices");
      u := t.(kids := t.kids + [Classes()]);
      Append(middle, cells, n, b, 0, u, n, Dev());
      u := u.(kids := u.kids + [Dev()]);
    }

    /** Lines 137-179: the top-level directories before /sys/devices. */
    method AddFront(ghost t: Spec) returns (ghost u: Spec)
      requires Valid() && count == 3 && |cells[0].children| == 2 && budget[0] == 88 && NoClassDirs(cells, 0, 3)
      requires NoneNamed(cells, "devices") && Matches(cells, 0, t) && !t.flags.dynamic
      modifies this
      ensures Grew(0, 3, 4) && count == 38 && FrontClasses(cells) && NoneNamed(cells, "devices")
      ensures u == t.(kids := t.kids + FrontRow()) && Matches(cells, 0, u)
    {
      u := AddBlockAndBus(t);
      u := AddClassesAndDev(u);
      assert t.kids + [ClassFolder("block", true, 2)] + [Folder("bus", false, [])] + [Classes()] + [Dev()] ==
             t.kids + FrontRow();
    }

    /** Lines 303-345: the top-level directories after /sys/devices. */
    method AddBack(ghost t: Spec) returns (ghost u: Spec)
      requires Valid() && 0 in cells && |budget| > 0 && |cells[0].children| + 19 <= budget[0]
      requires Matches(cells, 0, t) && !t.flags.dynamic
      modifies this
      ensures Valid() && Kept(old(cells), cells, 0) && old(budget) <= budget && NoClassDirs(cells, old(count), count)
      ensures u == t.(kids := t.kids + BackRow()) && Matches(cells, 0, u)
    {
      ghost var t1 := AddTopLevel("firmware", t);
      ghost var t2 := AddTopLevel("fs", t1);
      ghost var t3 := AddTopLevel("hypervisor", t2);
      u := AddKernel(t3);
      BackRowIs(t.kids);
    }

    /** An empty top-level directory. */
    method AddTopLevel(name: string, ghost t: Spec) returns (ghost u: Spec)
      requires Valid() && Affords(0, 2) && Matches(cells, 0, t) && !t.flags.dynamic && |name| < NAME_LEN
      modifies this
      ensures Grew(0, old(count), 1) && count == old(count) + 3 && NoClassDirs(cells, old(count), count)
      ensures u == t.(kids := t.kids + [Folder(name, false, [])]) && Matches(cells, 0, u)
    {
      ghost var before, n, b := cells, count, budget;
      AddEmpty(0, name);
      Append(before, cells, n, b, 0, t, n, Folder(name, false, []));
      u := t.(kids := t.kids + [Folder(name, false, [])]);
    }

    /** Lines 306-321: kernel, module and power, with nothing below kernel yet. */
    method AddKernelRow() returns (kernel: nat, modules: nat, power: nat)
      requires Valid() && 0 in cells && |budget| > 0 && |cells[0].children| + 13 <= budget[0] && !cells[0].flags.dynamic
      modifies this
      ensures Valid() && Kept(old(cells), cells, 0) && old(budget) <= budget && NoClassDirs(cells, old(count), count)
      ensures old(count) == kernel < modules < power < count && kernel < |budget| && budget[kernel] == 13
      ensures 0 in cells && cells[0].children == old(cells)[0].children + [kernel, modules, power]
      ensures Matches(cells, kernel, NewDirectory("kernel", PLAIN, 0)) && Matches(cells, modules, Modules())
      ensures Matches(cells, power, Folder("power", false, []))
    {
      kernel := AddDirectory(0, "kernel", PLAIN, 13);
      modules := count;
      ghost var before, n, b := cells, count, budget;
      AddModules(0);
      StaysAlike(before, cells, n, b, 0, kernel, NewDirectory("kernel", PLAIN, 0));
      power := count;
      before, n, b := cells, count, budget;
      AddEmpty(0, "power");
      StaysAlike(before, cells, n, b, 0, kernel, NewDirectory("kernel", PLAIN, 0));
      StaysAlike(before, cells, n, b, 0, modules, Modules());
    }

    /** Lines 306-345: kernel, module and power, and then what is below kernel. */
    method AddKernel(ghost t: Spec) returns (ghost u: Spec)
      requires Valid() && 0 in cells && |budget| > 0 && |cells[0].children| + 13 <= budget[0]
      requires Matches(cells, 0, t) && !t.flags.dynamic
      modifies this
      ensures Valid() && Kept(old(cells), cells, 0) && old(budget) <= budget && NoClassDirs(cells, old(count), count)
      ensures u == t.(kids := t.kids + [Kernel(), Modules(), Folder("power", false, [])]) && Matches(cells, 0, u)
    {
      var kernel, modules, power := AddKernelRow();
      ghost var before, n, b := cells, count, budget;
      AddMemory(kernel);
      Append(before, cells, n, b, kernel, NewDirectory("kernel", PLAIN, 0), n, MemoryFolder());
      StaysAlike(before, cells, n, b, kernel, modules, Modules());
      StaysAlike(before, cells, n, b, kernel, power, Folder("power", false, []));
      u := t.(kids := t.kids + [Kernel(), Modules(), Folder("power", false, [])]);
      AppendAll(old(cells), cells, old(count), old(budget), 0, t, [kernel, modules, power],
                [Kernel(), Modules(), Folder("power", false, [])]);
    }
  }
}
