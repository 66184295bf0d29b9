/**
 sysfs_structure_init() and sysfs_structure_free() together (kext/sysfs_structure.c:94-365).
 */
module StructureLife {
  import opened Wrappers
  import opened Layout
  import opened Planting
  import opened ReleaseOrder
  import opened StructureBuild
  import opened StructureMemory

  /** Where /sys/devices and /sys/devices/system/cpu are. */
  const DEVICES: nat := 38
  const CPU_DIR: nat := 66

  /** cpuN and cpuN/topology for N >= 1. */
  ghost predicate IsNumberedCpuDir(a: nat, cpus: nat) {
    exists c: nat {:trigger CpuSlot(CPU_DIR, c)} ::
      1 <= c < cpus && (a == CpuSlot(CPU_DIR, c) || a == CpuSlot(CPU_DIR, c) + 4)
  }

  /** /sys/block and the four directories of /sys/class. */
  ghost predicate IsDeviceClassDir(a: nat) {
    a == 3 || exists i: nat {:trigger ClassSlot(10, i)} :: i < |CLASSES| && a == ClassSlot(10, i)
  }

  lemma CpuClassDirs(cells: map<nat, Node>, cpus: nat, a: nat)
    requires AllCpus(cells, CPU_DIR, cpus) && CpuSlot(CPU_DIR, 0) <= a < CpuSlot(CPU_DIR, cpus) && a in cells
    ensures IsClassDir(cells[a]) <==> IsNumberedCpuDir(a, cpus)
  {
    var c := (a - CpuSlot(CPU_DIR, 0)) / CPU_NODES;
    assert CpuSlot(CPU_DIR, c) <= a < CpuSlot(CPU_DIR, c) + CPU_NODES;
    assert CpuAt(cells, CPU_DIR, CpuSlot(CPU_DIR, c), c);
  }

  lemma FrontClassDirs(cells: map<nat, Node>, a: nat)
    requires FrontClasses(cells) && a < 38 && a in cells
    ensures IsClassDir(cells[a]) <==> IsDeviceClassDir(a)
  {
    if 13 <= a < 29 {
      var i := (a - 13) / 4;
      assert ClassSlot(10, i) <= a < ClassSlot(10, i) + 4;
      assert ClassAt(cells, 10, ClassSlot(10, i), CLASSES[i].0, CLASSES[i].1);
    }
  }

  /** The tree of a mount: its class directories, its CPUs, and "devices" in the root. */
  ghost predicate MountTree(cells: map<nat, Node>, n: nat, budget: seq<nat>, cpus: nat) {
    && Planted(cells, n, budget) && FrontClasses(cells) && AllCpus(cells, CPU_DIR, cpus)
    && FirstOfName(cells, 6, "devices") && cells[0].children[6] == DEVICES && cells[DEVICES].kind == Device
    && OnlySystem(cells, DEVICES) && Matches(cells, 0, SysTree(cpus))
  }

  /**
   sysfs_structure_init(). Besides the directories meant to be class directories,
   sysfs_is_class_dir() holds of every cpuN and its topology but cpu0's.
   */
  method Init(nextId: nat, ncpu: nat) returns (b: Builder)
    requires nextId < 0x10000
    ensures fresh(b) && b.Valid() && b.budget[0] == 88 && MountTree(b.cells, b.count, b.budget, Cpus(ncpu))
    ensures forall a: nat {:trigger b.cells[a]} :: a in b.cells ==>
              (IsClassDir(b.cells[a]) <==> IsDeviceClassDir(a) || IsNumberedCpuDir(a, Cpus(ncpu)))
  {
    b := new Builder(nextId, 88);
    ghost var t := b.AddFront(Spec("/", Root, PLAIN, 0, Dots(false)));
    ghost var front, rooms := b.cells, b.budget;
    ghost var n, budget := AddDevicesTo(b, ncpu);
    Append(front, b.cells, DEVICES, rooms, 0, t, DEVICES, Devices(Cpus(ncpu)));
    ghost var middle := b.cells;
    t := b.AddBack(t.(kids := t.kids + [Devices(Cpus(ncpu))]));
    FrontStays(front, middle, b.cells);
    CpusStayAll(middle, b.cells, Cpus(ncpu));
    StillNamed(middle, b.cells, n, budget, 6, "devices");
    RootRow(Cpus(ncpu));
    assert NoClassDirs(b.cells, DEVICES, CpuSlot(CPU_DIR, 0)) by {
      assert forall a {:trigger b.cells[a]} :: a in middle && a > 0 ==> b.cells[a] == middle[a];
    }
    ClassDirsAre(b.cells, b.count, Cpus(ncpu));
  }

  lemma RootRow(cpus: nat)
    ensures Dots(false) + FrontRow() + [Devices(cpus)] + BackRow() == SysTree(cpus).kids
  {
  }

  /** The class directories of the parts are those of the whole. */
  lemma ClassDirsAre(cells: map<nat, Node>, count: nat, cpus: nat)
    requires FrontClasses(cells) && NoClassDirs(cells, DEVICES, CpuSlot(CPU_DIR, 0)) && AllCpus(cells, CPU_DIR, cpus)
    requires NoClassDirs(cells, CpuSlot(CPU_DIR, cpus), count) && forall a :: a in cells ==> a < count
    ensures forall a: nat {:trigger cells[a]} :: a in cells ==>
              (IsClassDir(cells[a]) <==> IsDeviceClassDir(a) || IsNumberedCpuDir(a, cpus))
  {
    forall a: nat | a in cells ensures IsClassDir(cells[a]) <==> IsDeviceClassDir(a) || IsNumberedCpuDir(a, cpus) {
      if a < DEVICES { FrontClassDirs(cells, a); }
      else if CpuSlot(CPU_DIR, 0) <= a < CpuSlot(CPU_DIR, cpus) { CpuClassDirs(cells, cpus, a); }
    }
  }

  /** /sys/devices is the root's first child of that name. */
  method AddDevicesTo(b: Builder, ncpu: nat) returns (ghost n: nat, ghost budget: seq<nat>)
    requires b.Valid() && b.count == DEVICES && b.Affords(0, 82) && |b.cells[0].children| == 6
    requires NoneNamed(b.cells, "devices")
    modifies b
    ensures b.Valid() && Kept(old(b.cells), b.cells, 0) && n == b.count == CpuSlot(CPU_DIR, Cpus(ncpu))
    ensures budget == b.budget
    ensures old(b.budget) <= budget && |b.cells[0].children| == 7
    ensures AllCpus(b.cells, CPU_DIR, Cpus(ncpu)) && NoClassDirs(b.cells, DEVICES, CPU_DIR + 8)
    ensures FirstOfName(b.cells, 6, "devices") && b.cells[0].children[6] == DEVICES
    ensures DEVICES in b.cells && b.cells[DEVICES].kind == Device && OnlySystem(b.cells, DEVICES)
    ensures b.cells[0].children == old(b.cells)[0].children + [DEVICES]
    ensures Matches(b.cells, DEVICES, Devices(Cpus(ncpu)))
  {
    ghost var before := b.cells;
    var cpus := b.AddDevices(0, ncpu);
    NowNamed(before, b.cells, DEVICES, old(b.budget), DEVICES, "devices");
    n, budget := b.count, b.budget;
  }

  lemma FrontStays(front: map<nat, Node>, middle: map<nat, Node>, last: map<nat, Node>)
    requires FrontClasses(front) && Kept(front, middle, 0) && Kept(middle, last, 0)
    requires forall a: nat {:trigger a in front} :: a in front <==> a < 38
    ensures FrontClasses(last)
  {
    assert forall a {:trigger last[a]} :: a in front ==>
             a in last && (a != 0 ==> last[a] == front[a]) && IsClassDir(last[a]) == IsClassDir(front[a]);
    assert ClassesAt(last, 10) by {
      forall i: nat | i < |CLASSES| ensures ClassAt(last, 10, ClassSlot(10, i), CLASSES[i].0, CLASSES[i].1) {
        assert ClassAt(front, 10, ClassSlot(10, i), CLASSES[i].0, CLASSES[i].1);
      }
    }
  }

  lemma CpusStayAll(middle: map<nat, Node>, last: map<nat, Node>, cpus: nat)
    requires AllCpus(middle, CPU_DIR, cpus) && Kept(middle, last, 0)
    requires forall a: nat {:trigger a in middle} :: a in middle <==> a < CpuSlot(CPU_DIR, cpus)
    ensures AllCpus(last, CPU_DIR, cpus)
  {
    forall c: nat | c < cpus ensures CpuAt(last, CPU_DIR, CpuSlot(CPU_DIR, c), c) {
      assert CpuAt(middle, CPU_DIR, CpuSlot(CPU_DIR, c), c);
      assert CpuSlot(CPU_DIR, c) + CPU_NODES <= CpuSlot(CPU_DIR, cpus);
    }
  }

  lemma AllGone(before: map<nat, Node>, after: map<nat, Node>, freed: seq<nat>, addrs: multiset<nat>)
    requires Remains(before, after, freed) && multiset(freed) == addrs
    requires forall x: nat {:trigger x in before} :: x in addrs <==> x in before
    ensures after == map[]
  {
    assert forall x :: x in freed <==> x in multiset(freed);
    assert after.Keys == {};
  }

  /** A mount and the unmount after it: for every number of CPUs the whole tree is freed, each node once. */
  method InitAndFree(nextId: nat, ncpu: nat) returns (memory: Memory)
    requires nextId < 0x10000
    ensures fresh(memory) && memory.cells == map[]
  {
    var b := Init(nextId, ncpu);
    memory := new Memory(b.cells);
    ghost var t := TreeAt(b.cells, b.count, b.budget, 0);
    WholeTree(b.cells, b.count, b.budget);
    ReleaseIsCompleteIff(t, STACK_MAX);
    ghost var freed := memory.ReleaseNode(Some(0), STACK_MAX, t);
    AllGone(b.cells, memory.cells, freed, Addrs(t));
  }

  /** Within one mount the base ids of the nodes differ, as long as the 16-bit counter does not wrap. */
  lemma BaseIdsDiffer(cells: map<nat, Node>, n: nat, firstId: nat, a: nat, b: nat)
    requires IdsInOrder(cells, n, firstId) && a in cells && b in cells && a < b < n
    requires ROOT_ID < firstId && firstId + n - 1 <= 0x10000
    ensures cells[a].baseId != cells[b].baseId
  {
  }
}
