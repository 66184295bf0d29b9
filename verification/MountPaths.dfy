/**
 The tree a mount builds, seen from outside: which fixed paths there are and what is at them, what
 /sys/module and the class directories list, and that types and dots are as listed everywhere.
 */
module MountPaths {
  import opened Wrappers
  import opened ClassListing
  import opened Directories
  import opened Dirents
  import opened LinkTarget
  import opened Lookup
  import opened Names
  import opened Planting
  import opened Registry
  import opened StructureBuild
  import opened StructureLife
  import L = Layout
  import M = StructureMemory

  // ---------- Fixed paths

  /** The first child of that name, name by name. */
  ghost function NodeAt(cells: map<nat, M.Node>, a: nat, path: seq<string>): Option<nat>
    requires forall x :: x in cells ==> TreeNode(cells, x)
    decreases |path|
  {
    if path == [] then Some(a)
    else if a !in cells then None
    else
      assert TreeNode(cells, a);
      var child := FirstChild(cells, cells[a].children, path[0]);
      if child.None? then None else NodeAt(cells, child.value, path[1..])
  }

  ghost function FirstKid(kids: seq<L.Spec>, name: string): Option<L.Spec> {
    if kids == [] then None
    else
      var n := |kids| - 1;
      var before := FirstKid(kids[..n], name);
      if before.Some? then before else if kids[n].name == name then Some(kids[n]) else None
  }

  ghost function SpecAt(t: L.Spec, path: seq<string>): Option<L.Spec>
    decreases |path|
  {
    if path == [] then Some(t)
    else
      var kid := FirstKid(t.kids, path[0]);
      if kid.None? then None else SpecAt(kid.value, path[1..])
  }

  lemma {:induction false} FirstChildMatches(cells: map<nat, M.Node>, nodes: seq<nat>, kids: seq<L.Spec>, name: string)
    requires |nodes| == |kids| && (forall k :: 0 <= k < |nodes| ==> nodes[k] in cells)
    requires forall k :: 0 <= k < |kids| ==> L.Matches(cells, nodes[k], kids[k])
    ensures var child, kid := FirstChild(cells, nodes, name), FirstKid(kids, name);
            (child.Some? <==> kid.Some?) && (child.Some? ==> L.Matches(cells, child.value, kid.value))
  {
    if nodes != [] {
      var n := |nodes| - 1;
      FirstChildMatches(cells, nodes[..n], kids[..n], name);
      assert L.Matches(cells, nodes[n], kids[n]);
    }
  }

  /** For every path: the tree has it just if the layout has it, and what is there looks as laid out. */
  lemma {:induction false} PathsAreLaidOut(cells: map<nat, M.Node>, a: nat, t: L.Spec, path: seq<string>)
    requires (forall x :: x in cells ==> TreeNode(cells, x)) && L.Matches(cells, a, t)
    ensures NodeAt(cells, a, path).Some? <==> SpecAt(t, path).Some?
    ensures NodeAt(cells, a, path).Some? ==> L.Matches(cells, NodeAt(cells, a, path).value, SpecAt(t, path).value)
    decreases |path|
  {
    if path != [] {
      assert TreeNode(cells, a);
      FirstChildMatches(cells, cells[a].children, t.kids, path[0]);
      var child := FirstChild(cells, cells[a].children, path[0]);
      if child.Some? { PathsAreLaidOut(cells, child.value, FirstKid(t.kids, path[0]).value, path[1..]); }
    }
  }

  /** The k-th child of a directory, if its name is new. */
  lemma {:induction false} FirstKidAt(kids: seq<L.Spec>, k: nat, name: string)
    requires k < |kids| && kids[k].name == name && forall j :: 0 <= j < k ==> kids[j].name != name
    ensures FirstKid(kids, name) == Some(kids[k])
  {
    if k < |kids| - 1 { FirstKidAt(kids[..|kids| - 1], k, name); } else { NoKid(kids[..k], name); }
  }

  lemma {:induction false} NoKid(kids: seq<L.Spec>, name: string)
    requires forall j :: 0 <= j < |kids| ==> kids[j].name != name
    ensures FirstKid(kids, name).None?
  {
    if kids != [] { NoKid(kids[..|kids| - 1], name); }
  }

  // ---------- /sys/module

  /** The root's first child of a name is the one the layout has there. */
  lemma TopLevel(w: World, n: nat, budget: seq<nat>, cpus: nat, k: nat, name: string) returns (d: nat)
    requires WellFormed(w) && MountTree(w.cells, n, budget, cpus) && k < |L.SysTree(cpus).kids|
    requires L.SysTree(cpus).kids[k].name == name && forall j :: 0 <= j < k ==> L.SysTree(cpus).kids[j].name != name
    ensures FirstChild(w.cells, w.cells[0].children, name) == Some(d) && d in w.cells && w.cells[d].parent == Some(0)
    ensures L.Matches(w.cells, d, L.SysTree(cpus).kids[k])
  {
    assert TreeNode(w.cells, 0);
    FirstChildMatches(w.cells, w.cells[0].children, L.SysTree(cpus).kids, name);
    FirstKidAt(L.SysTree(cpus).kids, k, name);
    d := FirstChild(w.cells, w.cells[0].children, name).value;
  }

  /** A directory that looks like the modules directory lists the modules and nothing else, and finds each of them. */
  lemma ModulesAreListed(w: World, d: nat)
    requires WellFormed(w) && L.Matches(w.cells, d, L.Modules())
    ensures var dir, items := StaticNode(w.cells, d), ItemsOf(w, StaticNode(w.cells, d));
            && |w.cells[d].children| == 3 && w.cells[d].children[2] in w.cells
            && |items| == 2 + |w.modules|
            && forall i :: 0 <= i < |w.modules| ==>
                 items[2 + i] == Item(w.modules[i].0, Directory, ModuleNode(w, d, w.modules[i].1).id)
    ensures forall name {:trigger FirstPair(w.modules, name)} ::
              Resolved(w, StaticNode(w.cells, d), name) ==
              var tag := FirstPair(w.modules, name); if tag.None? then None else Some(ModuleNode(w, d, tag.value))
  {
    var t := L.Modules();
    assert TreeNode(w.cells, d);
    assert L.Matches(w.cells, w.cells[d].children[0], t.kids[0]);
    assert L.Matches(w.cells, w.cells[d].children[1], t.kids[1]);
    assert L.Matches(w.cells, w.cells[d].children[2], t.kids[2]);
    ThirdOfKind(w.cells, w.cells[d].children, M.Module);
    RowIs(SelfId(w.cells, StaticNode(w.cells, d)), w.modules, w.cells[w.cells[d].children[2]].baseId);
  }

  /** The node lookup gives out for a module. */
  ghost function ModuleNode(w: World, d: nat, tag: nat): FsNode
    requires d in w.cells && |w.cells[d].children| == 3 && w.cells[d].children[2] in w.cells
  {
    FsNode(w.cells[d].children[2], NodeId(tag, DIR_OBJID, w.cells[w.cells[d].children[2]].baseId))
  }

  lemma ThirdOfKind(cells: map<nat, M.Node>, kids: seq<nat>, kind: M.Kind)
    requires |kids| == 3 && forall k :: 0 <= k < |kids| ==> kids[k] in cells
    requires cells[kids[0]].kind != kind && cells[kids[1]].kind != kind && cells[kids[2]].kind == kind
    ensures FirstOfKind(cells, kids, kind) == Some(kids[2])
  {
    assert kids[1..][1..] == kids[2..] && kids[2..][0] == kids[2];
  }

  lemma RowIs(id: NodeId, pairs: seq<(string, nat)>, baseId: nat)
    ensures var items := Directories.Dots(id) + RowOf(pairs, Directory, DIR_OBJID, baseId);
            && |items| == 2 + |pairs|
            && forall i :: 0 <= i < |pairs| ==>
                 items[2 + i] == Item(pairs[i].0, Directory, NodeId(pairs[i].1, DIR_OBJID, baseId))
  {
    var row := RowOf(pairs, Directory, DIR_OBJID, baseId);
    forall i | 0 <= i < |pairs| ensures row[i] == Item(pairs[i].0, Directory, NodeId(pairs[i].1, DIR_OBJID, baseId)) {
      RowOfAt(pairs, Directory, DIR_OBJID, baseId, i);
    }
  }

  /**
   In the tree of a mount, the root's first child named "module" lists after "." and ".." exactly the
   loaded modules in order, and a name resolves to the directory of the first module of that name.
   */
  lemma {:induction false} ModuleDirectory(w: World, n: nat, budget: seq<nat>, cpus: nat) returns (d: nat)
    requires WellFormed(w) && MountTree(w.cells, n, budget, cpus)
    ensures FirstChild(w.cells, w.cells[0].children, "module") == Some(d) && d in w.cells
    ensures |w.cells[d].children| == 3 && w.cells[d].children[2] in w.cells
    ensures var items := ItemsOf(w, StaticNode(w.cells, d));
            && |items| == 2 + |w.modules|
            && forall i :: 0 <= i < |w.modules| ==>
                 items[2 + i] == Item(w.modules[i].0, Directory, ModuleNode(w, d, w.modules[i].1).id)
    ensures forall name {:trigger FirstPair(w.modules, name)} ::
              Resolved(w, StaticNode(w.cells, d), name) ==
              var tag := FirstPair(w.modules, name); if tag.None? then None else Some(ModuleNode(w, d, tag.value))
    ensures forall tag :: IsDirectory(w.cells, ModuleNode(w, d, tag))
  {
    d := TopLevel(w, n, budget, cpus, 11, "module");
    assert L.SysTree(cpus).kids[11] == L.Modules();
    ModulesAreListed(w, d);
    assert L.Matches(w.cells, w.cells[d].children[2], L.Modules().kids[2]);
  }

  // ---------- The directories of /sys/devices/system/cpu

  lemma {:induction false} EachCpuAt(n: nat, c: nat)
    requires c < n
    ensures L.EachCpu(n)[c] == L.Cpu(c)
  {
    if c < n - 1 { EachCpuAt(n - 1, c); }
  }

  lemma CpuNamesDiffer(j: nat, c: nat)
    requires j < c < 64
    ensures L.Cpu(j).name == "cpu" + Decimal(j) && L.Cpu(c).name == "cpu" + Decimal(c) && L.Cpu(j).name != L.Cpu(c).name
  {
    DecimalShort(j);
    DecimalShort(c);
    if L.Cpu(j).name == L.Cpu(c).name {
      assert Decimal(j) == L.Cpu(j).name[3..] && Decimal(c) == L.Cpu(c).name[3..];
      DecimalInjective(j, c);
    }
  }

  lemma CpuFileNames(i: nat, name: string)
    requires i < 5 && |name| > 0 && name[0] == 'c'
    ensures L.Files(["online", "possible", "present", "offline", "kernel_max"], true, 0)[i].name != name
  {
    var names := ["online", "possible", "present", "offline", "kernel_max"];
    L.FilesAt(names, true, 0, i);
    assert names[i][0] != 'c';
  }

  /** Every CPU up to the limit has its directory in the layout, under its number. */
  lemma CpuIsLaidOut(cpus: nat, c: nat)
    requires c < cpus <= 64
    ensures FirstKid(L.CpuFolder(cpus).kids, "cpu" + Decimal(c)) == Some(L.Cpu(c))
  {
    var kids, name := L.CpuFolder(cpus).kids, "cpu" + Decimal(c);
    DecimalShort(c);
    EachCpuAt(cpus, c);
    assert name[0] == 'c';
    forall j | 0 <= j < 7 + c ensures kids[j].name != name {
      if j >= 7 {
        EachCpuAt(cpus, j - 7);
        CpuNamesDiffer(j - 7, c);
      } else if j >= 2 {
        CpuFileNames(j - 2, name);
      }
    }
    FirstKidAt(kids, 7 + c, name);
  }

  // ---------- The class directories

  /** What is at the four paths below /sys/class. */
  lemma {:induction false} ClassPaths()
    ensures SpecAt(L.Classes(), ["net"]) == Some(L.ClassFolder("net", false, CLASS_NET))
    ensures SpecAt(L.Classes(), ["block"]) == Some(L.ClassFolder("block", false, CLASS_BLOCK))
    ensures SpecAt(L.Classes(), ["tty"]) == Some(L.ClassFolder("tty", false, CLASS_TTY))
    ensures SpecAt(L.Classes(), ["power_supply"]) == Some(L.ClassFolder("power_supply", false, CLASS_POWER))
  {
    FirstKidAt(L.Classes().kids, 2, "net");
    FirstKidAt(L.Classes().kids, 3, "block");
    FirstKidAt(L.Classes().kids, 4, "tty");
    FirstKidAt(L.Classes().kids, 5, "power_supply");
  }

  /** A directory that looks like a class directory lists its class as recorded by the walk. */
  lemma ClassFolderLists(w: World, d: nat, name: string, wholeOnly: bool, classId: nat, walk: seq<Entry>, cap: nat)
    requires WellFormed(w) && L.Matches(w.cells, d, L.ClassFolder(name, wholeOnly, classId)) && classId != CLASS_NONE
    requires w.snap.Some? && cap >= 1 && w.snap.value.base == Recorded(walk, cap)
    ensures var listed, items := Listed(walk, cap, classId, wholeOnly, |walk|), ItemsOf(w, StaticNode(w.cells, d));
            && |items| == 2 + |listed|
            && forall i :: 0 <= i < |listed| ==>
                 items[2 + i] == Item(listed[i].0, Symlink, NodeId(listed[i].1, NO_OBJECTID, w.cells[d].baseId))
  {
    ClassListsWalk(w, StaticNode(w.cells, d), walk, cap);
  }

  /** /sys/block, or the class directory number i. */
  function ClassPath(i: nat): seq<string> {
    match i
    case 0 => ["block"]
    case 1 => ["class", "net"]
    case 2 => ["class", "block"]
    case 3 => ["class", "tty"]
    case _ => ["class", "power_supply"]
  }

  lemma {:induction false} BlockPath(cpus: nat)
    ensures SpecAt(L.SysTree(cpus), ["block"]) == Some(L.ClassFolder("block", true, CLASS_BLOCK))
  {
    FirstKidAt(L.SysTree(cpus).kids, 2, "block");
  }

  lemma {:induction false} BelowClass(cpus: nat, name: string)
    ensures SpecAt(L.SysTree(cpus), ["class", name]) == SpecAt(L.Classes(), [name])
  {
    FirstKidAt(L.SysTree(cpus).kids, 4, "class");
    assert ["class", name][1..] == [name];
  }

  lemma {:induction false} ClassPathIs(cpus: nat, i: nat) returns (name: string)
    requires i <= 4
    ensures SpecAt(L.SysTree(cpus), ClassPath(i)) ==
            Some(L.ClassFolder(name, i == 0, if i == 0 then CLASS_BLOCK else i))
  {
    name := ClassPath(i)[|ClassPath(i)| - 1];
    if i == 0 {
      BlockPath(cpus);
    } else {
      BelowClass(cpus, name);
      ClassPaths();
    }
  }

  /**
   In the tree of a mount, over a snapshot of a walk: /sys/block lists the recorded whole disks, and
   the directories net, block, tty and power_supply of /sys/class the recorded members of the classes
   1 to 4, in walk order, under their device names and with their ids.
   */
  lemma ClassDirectoryLists(w: World, n: nat, budget: seq<nat>, cpus: nat, i: nat, walk: seq<Entry>, cap: nat)
    returns (d: nat)
    requires WellFormed(w) && MountTree(w.cells, n, budget, cpus) && i <= 4
    requires w.snap.Some? && cap >= 1 && w.snap.value.base == Recorded(walk, cap)
    ensures NodeAt(w.cells, 0, ClassPath(i)) == Some(d) && d in w.cells
    ensures var listed := Listed(walk, cap, if i == 0 then 2 else i, i == 0, |walk|);
            var items := ItemsOf(w, StaticNode(w.cells, d));
            && |items| == 2 + |listed|
            && forall k :: 0 <= k < |listed| ==>
                 items[2 + k] == Item(listed[k].0, Symlink, NodeId(listed[k].1, NO_OBJECTID, w.cells[d].baseId))
  {
    var name := ClassPathIs(cpus, i);
    PathsAreLaidOut(w.cells, 0, L.SysTree(cpus), ClassPath(i));
    d := NodeAt(w.cells, 0, ClassPath(i)).value;
    ClassFolderLists(w, d, name, i == 0, if i == 0 then CLASS_BLOCK else i, walk, cap);
  }

  // ---------- What holds of every node of the tree

  /** Directories start with "." and "..", and what a device node holds is neither a symlink nor a module. */
  ghost predicate IsTidy(t: L.Spec) {
    && (t.kind == M.Dir || t.kind == M.Root ==>
          |t.kids| >= 2 && t.kids[0].kind == M.DirThis && t.kids[1].kind == M.DirParent)
    && (t.kind == M.Device ==> forall k :: 0 <= k < |t.kids| ==> t.kids[k].kind != M.Link && t.kids[k].kind != M.Module)
  }

  ghost predicate Tidy(t: L.Spec)
    decreases t
  {
    IsTidy(t) && AllTidy(t.kids)
  }

  ghost predicate AllTidy(kids: seq<L.Spec>)
    decreases kids
  {
    forall k {:trigger kids[k]} :: 0 <= k < |kids| ==> Tidy(kids[k])
  }

  lemma TidyJoin(a: seq<L.Spec>, b: seq<L.Spec>)
    requires AllTidy(a) && AllTidy(b)
    ensures AllTidy(a + b)
  {
  }

  lemma TidyFolder(name: string, dynamic: bool, kids: seq<L.Spec>)
    requires AllTidy(kids)
    ensures Tidy(L.Folder(name, dynamic, kids))
  {
    TidyJoin(L.Dots(dynamic), kids);
  }

  lemma TidyFiles(names: seq<string>, dynamic: bool, instance: nat)
    ensures AllTidy(L.Files(names, dynamic, instance))
  {
    forall i | 0 <= i < |names| ensures Tidy(L.Files(names, dynamic, instance)[i]) {
      L.FilesAt(names, dynamic, instance, i);
    }
  }

  lemma TidyHugepages(dynamic: bool, counters: seq<string>)
    ensures Tidy(L.Hugepages(dynamic, counters))
  {
    TidyFiles(counters, dynamic, 0);
    TidyFolder("hugepages-2048kB", dynamic, L.Files(counters, dynamic, 0));
    TidyFolder("hugepages", dynamic, [L.Folder("hugepages-2048kB", dynamic, L.Files(counters, dynamic, 0))]);
  }

  lemma TidyNodes()
    ensures Tidy(L.NumaNodes())
  {
    var counters := ["nr_hugepages", "free_hugepages", "surplus_hugepages"];
    var names := ["cpulist", "cpumap", "meminfo", "distance", "numastat"];
    TidyHugepages(true, counters);
    TidyFiles(names, true, 0);
    TidyJoin([L.Hugepages(true, counters)], L.Files(names, true, 0));
    TidyFolder("node0", true, [L.Hugepages(true, counters)] + L.Files(names, true, 0));
    var more := ["online", "possible", "has_cpu", "has_memory"];
    TidyFiles(more, true, 0);
    TidyJoin([L.Node0()], L.Files(more, true, 0));
    TidyFolder("node", true, [L.Node0()] + L.Files(more, true, 0));
  }

  lemma TidyCpu(c: nat)
    ensures Tidy(L.Cpu(c))
  {
    var names := ["core_id", "physical_package_id", "thread_siblings_list", "core_siblings_list"];
    TidyFiles(names, true, c);
    TidyFolder("topology", true, L.Files(names, true, c));
    TidyFolder("", true, [L.FileSpec("online", true, c), L.Topology(c)]);
  }

  lemma TidyCpus(n: nat)
    ensures Tidy(L.CpuFolder(n))
  {
    var names := ["online", "possible", "present", "offline", "kernel_max"];
    forall c | 0 <= c < n ensures Tidy(L.EachCpu(n)[c]) {
      EachCpuAt(n, c);
      TidyCpu(c);
    }
    TidyFiles(names, true, 0);
    TidyJoin(L.Files(names, true, 0), L.EachCpu(n));
    TidyFolder("cpu", true, L.Files(names, true, 0) + L.EachCpu(n));
  }

  lemma TidyDevices(n: nat)
    ensures Tidy(L.Devices(n))
  {
    TidyNodes();
    TidyCpus(n);
    TidyFolder("system", true, [L.NumaNodes(), L.CpuFolder(n)]);
  }

  lemma TidyClass(name: string, wholeOnly: bool, classId: nat)
    ensures Tidy(L.ClassFolder(name, wholeOnly, classId))
  {
  }

  lemma TidyFront()
    ensures AllTidy(FrontRow())
  {
    TidyClass("block", true, 2);
    TidyFolder("bus", false, []);
    TidyClass("net", false, 1);
    TidyClass("block", false, 2);
    TidyClass("tty", false, 3);
    TidyClass("power_supply", false, 4);
    TidyFolder("class", false, [L.ClassFolder("net", false, 1), L.ClassFolder("block", false, 2),
                                L.ClassFolder("tty", false, 3), L.ClassFolder("power_supply", false, 4)]);
    TidyFolder("char", false, []);
    TidyFolder("block", false, []);
    TidyFolder("dev", false, [L.Folder("char", false, []), L.Folder("block", false, [])]);
  }

  lemma TidyBack()
    ensures AllTidy(BackRow())
  {
    TidyFolder("firmware", false, []);
    TidyFolder("fs", false, []);
    TidyFolder("hypervisor", false, []);
    TidyFolder("power", false, []);
    var counters :=
      ["nr_hugepages", "free_hugepages", "surplus_hugepages", "resv_hugepages", "nr_overcommit_hugepages"];
    TidyHugepages(false, counters);
    TidyFolder("mm", false, [L.Hugepages(false, counters)]);
    TidyFolder("kernel", false, [L.MemoryFolder()]);
    assert Tidy(L.Modules());
  }

  lemma TidyTree(cpus: nat)
    ensures Tidy(L.SysTree(cpus))
  {
    TidyFront();
    TidyDevices(cpus);
    TidyBack();
    RootRow(cpus);
    TidyJoin(L.Dots(false), FrontRow());
    TidyJoin(L.Dots(false) + FrontRow(), [L.Devices(cpus)]);
    TidyJoin(L.Dots(false) + FrontRow() + [L.Devices(cpus)], BackRow());
  }

  /** Every node of the tree has its place in the layout. */
  lemma {:induction false} SpecOf(cells: map<nat, M.Node>, n: nat, budget: seq<nat>, t: L.Spec, a: nat)
    returns (u: L.Spec)
    requires Planted(cells, n, budget) && L.Matches(cells, 0, t) && Tidy(t) && a < n
    ensures L.Matches(cells, a, u) && Tidy(u)
    decreases a
  {
    if a == 0 {
      u := t;
    } else {
      assert Linked(cells, a);
      var p := cells[a].parent.value;
      var v := SpecOf(cells, n, budget, t, p);
      var k :| 0 <= k < |cells[p].children| && cells[p].children[k] == a;
      u := v.kids[k];
    }
  }

  /** In the tree of a mount every type is as listed, in every directory and for every name. */
  lemma TypesAgreeOnMount(w: World, n: nat, budget: seq<nat>, cpus: nat, dir: FsNode, name: string)
    requires WellFormed(w) && MountTree(w.cells, n, budget, cpus) && Proper(w, dir) && IsDirectory(w.cells, dir)
    requires !IsDotName(name) && Resolved(w, dir, name).Some?
    ensures var hit, item := Resolved(w, dir, name).value, FirstItem(ItemsOf(w, dir), name);
            hit.at in w.cells && item.Some? && item.value.dtype == TypeOf(w.cells, hit)
  {
    TidyTree(cpus);
    var t := SpecOf(w.cells, n, budget, L.SysTree(cpus), dir.at);
    TypesAgreeIff(w, dir, name);
    DeviceKids(w, dir, name, t);
  }

  lemma DeviceKids(w: World, dir: FsNode, name: string, t: L.Spec)
    requires WellFormed(w) && Proper(w, dir) && IsDirectory(w.cells, dir) && L.Matches(w.cells, dir.at, t) && IsTidy(t)
    requires Resolved(w, dir, name).Some? && Resolved(w, dir, name).value.at in w.cells
    ensures TypeIsKnown(w, dir, Resolved(w, dir, name).value)
  {
    assert TreeNode(w.cells, dir.at);
    var hit, kids := Resolved(w, dir, name).value, w.cells[dir.at].children;
    if w.cells[dir.at].kind == M.Device && hit.at != dir.at {
      var k :| 0 <= k < |kids| && kids[k] == hit.at;
      assert L.Matches(w.cells, kids[k], t.kids[k]);
    }
  }

  /** In the tree of a mount every static directory lists "." with its own id, then ".." with the id it leads to. */
  lemma {:induction false} DotsOnMount(w: World, n: nat, budget: seq<nat>, cpus: nat, dir: FsNode)
    requires WellFormed(w) && MountTree(w.cells, n, budget, cpus) && dir.at in w.cells
    requires w.cells[dir.at].kind == M.Root || w.cells[dir.at].kind == M.Dir
    requires !IsModuleContainer(w.cells[dir.at]) && !IsClassDir(w.cells[dir.at])
    ensures |ItemsOf(w, dir)| == |w.cells[dir.at].children| >= 2
    ensures ItemsOf(w, dir)[0] == Item(".", Directory, dir.id)
    ensures ItemsOf(w, dir)[1] == Item("..", Directory, Parent(w, dir).id)
  {
    TidyTree(cpus);
    var t := SpecOf(w.cells, n, budget, L.SysTree(cpus), dir.at);
    var kids := w.cells[dir.at].children;
    assert L.Matches(w.cells, kids[0], t.kids[0]) && L.Matches(w.cells, kids[1], t.kids[1]);
    StaticDots(w, dir, 0);
    StaticDots(w, dir, 1);
  }
}
