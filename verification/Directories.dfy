/**
 What each kind of directory contains, entry by entry and in the order it is listed
 (kext/sysfs_vnops.c:695-1038, :1337-1431; kext/sysfs_node.c:384-406).
 */
module Directories {
  import opened Wrappers
  import opened Dirents
  import opened DevicePath
  import opened Registry
  import opened Snapshot
  import opened Planting
  import opened StructureBuild
  import M = StructureMemory

  /** SYSFS_NO_REGID, SYSFS_NO_OBJECTID, and the object id of a device or module directory. */
  const NO_REGID: nat := 0
  const NO_OBJECTID: nat := 0
  const DIR_OBJID: nat := 0

  /** sysfs_dev_attrs and sysfs_mod_attrs. */
  const DEVICE_ATTRS: seq<(string, nat)> := [("name", 1)]
  const MODULE_ATTRS: seq<(string, nat)> := [("refcnt", 1), ("coresize", 2), ("initstate", 3), ("version", 4)]

  /** NAME_MAX + 1: the name buffers of readdir. */
  const NAME_BUFFER: nat := 256

  /** A node of the filesystem: its place in the structure tree, and its id. */
  datatype FsNode = FsNode(at: nat, id: NodeId)

  /**
   What names are resolved against: the tree, the published snapshot if there is one, the names and
   load tags of the loaded modules.
   */
  datatype World = World(cells: map<nat, M.Node>, snap: Option<Built>, modules: seq<(string, nat)>)

  /** A node's links stay inside the tree; none of its children is a root, and only "." and ".." have their types. */
  ghost predicate TreeNode(cells: map<nat, M.Node>, a: nat) {
    a in cells && (cells[a].parent.Some? ==> cells[a].parent.value in cells) &&
    forall k {:trigger cells[a].children[k]} :: 0 <= k < |cells[a].children| ==>
      var c := cells[a].children[k];
      c in cells && c != a && cells[c].parent == Some(a) && cells[c].kind != M.Root &&
      (cells[c].kind == M.DirThis ==> cells[c].name == ".") && (cells[c].kind == M.DirParent ==> cells[c].name == "..")
  }

  ghost predicate WellFormed(w: World) {
    (forall a {:trigger TreeNode(w.cells, a)} {:trigger w.cells[a]} :: a in w.cells ==> TreeNode(w.cells, a)) &&
    (w.snap.Some? ==> w.snap.value.base != [])
  }

  /** The tree sysfs_structure_init() builds is well formed. */
  lemma PlantedIsWellFormed(w: World, n: nat, budget: seq<nat>)
    requires Planted(w.cells, n, budget) && (w.snap.Some? ==> w.snap.value.base != [])
    ensures WellFormed(w)
  {
    forall a | a in w.cells ensures TreeNode(w.cells, a) {
      assert Linked(w.cells, a) && Branch(w.cells, n, budget, a);
      forall k | 0 <= k < |w.cells[a].children| ensures Linked(w.cells, w.cells[a].children[k]) { }
    }
  }

  /** sysfs_is_module_dir(). */
  predicate IsModuleContainer(node: M.Node) {
    node.flags.modules && node.kind == M.Dir
  }

  // ---------- Parents

  /** sysfs_get_parent_node_id(): the root is its own parent; in a dynamic subtree the ids are kept. */
  function ParentIdOf(cells: map<nat, M.Node>, dir: FsNode): NodeId
    requires dir.at in cells && (cells[dir.at].parent.Some? ==> cells[dir.at].parent.value in cells)
  {
    var parent := cells[if cells[dir.at].parent.Some? then cells[dir.at].parent.value else dir.at];
    if parent.flags.dynamic then NodeId(dir.id.regid, dir.id.objectid, parent.baseId)
    else NodeId(NO_REGID, NO_OBJECTID, parent.baseId)
  }

  // ---------- Listings

  function Dots(id: NodeId): seq<Item> {
    [Item(".", Directory, id), Item("..", Directory, id)]
  }

  function Attributes(attrs: seq<(string, nat)>, regid: nat, baseId: nat): (row: seq<Item>)
    ensures |row| == |attrs|
  {
    if attrs == [] then []
    else
      var last := attrs[|attrs| - 1];
      Attributes(attrs[..|attrs| - 1], regid, baseId) + [Item(last.0, Regular, NodeId(regid, last.1, baseId))]
  }

  /** One child of a static directory. */
  function StaticItem(cells: map<nat, M.Node>, dir: FsNode, child: M.Node): Item
    requires dir.at in cells && (cells[dir.at].parent.Some? ==> cells[dir.at].parent.value in cells)
  {
    match child.kind
    case DirThis => Item(child.name, Directory, dir.id)
    case DirParent => Item(child.name, Directory, ParentIdOf(cells, dir))
    case File => Item(child.name, Regular, NodeId(dir.id.regid, dir.id.objectid, child.baseId))
    case Link => Item(child.name, Symlink, NodeId(dir.id.regid, dir.id.objectid, child.baseId))
    case _ => Item(child.name, Directory, NodeId(dir.id.regid, dir.id.objectid, child.baseId))
  }

  /** The first k children of a static directory; one of type SFSroot is skipped. */
  function StaticItems(cells: map<nat, M.Node>, dir: FsNode, kids: seq<nat>): seq<Item>
    requires dir.at in cells && (cells[dir.at].parent.Some? ==> cells[dir.at].parent.value in cells)
    requires forall k :: 0 <= k < |kids| ==> kids[k] in cells
  {
    if kids == [] then []
    else
      var child := cells[kids[|kids| - 1]];
      StaticItems(cells, dir, kids[..|kids| - 1]) +
      (if child.kind == M.Root then [] else [StaticItem(cells, dir, child)])
  }

  predicate IsDirectoryKind(kind: M.Kind) {
    kind == M.Root || kind == M.Dir || kind == M.DirThis || kind == M.DirParent || kind == M.Device
  }

  /** The static children of /sys/devices. */
  function DeviceStatics(cells: map<nat, M.Node>, kids: seq<nat>): (row: seq<Item>)
    requires forall k :: 0 <= k < |kids| ==> kids[k] in cells
    ensures |row| == |kids|
  {
    if kids == [] then []
    else
      var child := cells[kids[|kids| - 1]];
      DeviceStatics(cells, kids[..|kids| - 1]) +
      [Item(child.name, if IsDirectoryKind(child.kind) then Directory else Regular,
            NodeId(NO_REGID, NO_OBJECTID, child.baseId))]
  }

  /** A row of entries that differ in name and registry id or load tag only. */
  function RowOf(pairs: seq<(string, nat)>, dtype: EntryType, objectid: nat, baseId: nat): (row: seq<Item>)
    ensures |row| == |pairs|
  {
    if pairs == [] then []
    else
      var last := pairs[|pairs| - 1];
      RowOf(pairs[..|pairs| - 1], dtype, objectid, baseId) + [Item(last.0, dtype, NodeId(last.1, objectid, baseId))]
  }

  lemma {:induction false} RowOfAt(pairs: seq<(string, nat)>, dtype: EntryType, objectid: nat, baseId: nat, i: nat)
    requires i < |pairs|
    ensures RowOf(pairs, dtype, objectid, baseId)[i] == Item(pairs[i].0, dtype, NodeId(pairs[i].1, objectid, baseId))
  {
    if i < |pairs| - 1 { RowOfAt(pairs[..|pairs| - 1], dtype, objectid, baseId, i); }
  }

  /** The display names and ids of nodes. */
  ghost function Shown(base: seq<SnapNode>, kids: seq<nat>): (pairs: seq<(string, nat)>)
    requires forall k :: 0 <= k < |kids| ==> 1 <= kids[k] < |base|
    ensures |pairs| == |kids|
  {
    if kids == [] then []
    else
      var last := kids[|kids| - 1];
      Shown(base, kids[..|kids| - 1]) + [(Strlcpy(NodeDisplay(base, last), NAME_BUFFER), base[last].regid)]
  }

  lemma {:induction false} ShownAt(base: seq<SnapNode>, kids: seq<nat>, i: nat)
    requires (forall k :: 0 <= k < |kids| ==> 1 <= kids[k] < |base|) && i < |kids|
    ensures Shown(base, kids)[i] == (Strlcpy(NodeDisplay(base, kids[i]), NAME_BUFFER), base[kids[i]].regid)
  {
    if i < |kids| - 1 { ShownAt(base, kids[..|kids| - 1], i); }
  }

  /** What a registry entry is listed with. */
  ghost function ChildPairs(snap: Option<Built>, regid: nat): seq<(string, nat)> {
    if snap.None? || regid !in IndexMap(snap.value.base) then []
    else Shown(snap.value.base, ChildList(snap.value, IndexMap(snap.value.base)[regid]))
  }

  ghost function DeviceNames(base: seq<SnapNode>, members: seq<nat>): (pairs: seq<(string, nat)>)
    requires forall k :: 0 <= k < |members| ==> members[k] < |base|
    ensures |pairs| == |members|
  {
    if members == [] then []
    else
      var last := members[|members| - 1];
      DeviceNames(base, members[..|members| - 1]) + [(Strlcpy(base[last].bsdName, NAME_BUFFER), base[last].regid)]
  }

  lemma {:induction false} DeviceNamesAt(base: seq<SnapNode>, members: seq<nat>, i: nat)
    requires (forall k :: 0 <= k < |members| ==> members[k] < |base|) && i < |members|
    ensures DeviceNames(base, members)[i] == (Strlcpy(base[members[i]].bsdName, NAME_BUFFER), base[members[i]].regid)
  {
    if i < |members| - 1 { DeviceNamesAt(base, members[..|members| - 1], i); }
  }

  ghost function MemberPairs(snap: Option<Built>, classId: nat, wholeOnly: bool): seq<(string, nat)> {
    if snap.None? then [] else DeviceNames(snap.value.base, Members(snap.value.base, classId, wholeOnly))
  }

  /** The first child of the given kind, if any. */
  function FirstOfKind(cells: map<nat, M.Node>, kids: seq<nat>, kind: M.Kind): (child: Option<nat>)
    requires forall k :: 0 <= k < |kids| ==> kids[k] in cells
    ensures child.Some? ==> child.value in cells && cells[child.value].kind == kind && child.value in kids
    ensures child.None? ==> forall k :: 0 <= k < |kids| ==> cells[kids[k]].kind != kind
  {
    if kids == [] then None
    else if cells[kids[0]].kind == kind then Some(kids[0])
    else FirstOfKind(cells, kids[1..], kind)
  }

  /** The id the dynamic directories give "." and "..": their own, with the base id of the structure node. */
  function SelfId(cells: map<nat, M.Node>, dir: FsNode): NodeId
    requires dir.at in cells
  {
    NodeId(dir.id.regid, dir.id.objectid, cells[dir.at].baseId)
  }

  /** Before the registry children of a device: its attributes, or the static children of /sys/devices. */
  function DeviceRow(cells: map<nat, M.Node>, dir: FsNode): seq<Item>
    requires dir.at in cells && forall k :: 0 <= k < |cells[dir.at].children| ==> cells[dir.at].children[k] in cells
  {
    if dir.id.regid != NO_REGID then Attributes(DEVICE_ATTRS, dir.id.regid, cells[dir.at].baseId)
    else DeviceStatics(cells, cells[dir.at].children)
  }

  ghost function DeviceItems(w: World, dir: FsNode): seq<Item>
    requires WellFormed(w) && dir.at in w.cells
  {
    Dots(SelfId(w.cells, dir)) + DeviceRow(w.cells, dir) +
    RowOf(ChildPairs(w.snap, dir.id.regid), Directory, DIR_OBJID, w.cells[dir.at].baseId)
  }

  ghost function ClassItems(w: World, dir: FsNode): seq<Item>
    requires WellFormed(w) && dir.at in w.cells
  {
    var node := w.cells[dir.at];
    Dots(SelfId(w.cells, dir)) +
    RowOf(MemberPairs(w.snap, node.instance, node.flags.wholeOnly), Symlink, NO_OBJECTID, node.baseId)
  }

  ghost function ModuleDirItems(w: World, dir: FsNode): seq<Item>
    requires WellFormed(w) && dir.at in w.cells
  {
    Dots(SelfId(w.cells, dir)) +
    if IsModuleContainer(w.cells[dir.at]) then
      var marker := FirstOfKind(w.cells, w.cells[dir.at].children, M.Module);
      if marker.None? then [] else RowOf(w.modules, Directory, DIR_OBJID, w.cells[marker.value].baseId)
    else Attributes(MODULE_ATTRS, dir.id.regid, w.cells[dir.at].baseId)
  }

  /** The listing of any directory; sysfs_vnop_readdir() and sysfs_vnop_lookup() tell the kinds apart alike. */
  ghost function ItemsOf(w: World, dir: FsNode): seq<Item>
    requires WellFormed(w) && dir.at in w.cells
  {
    var node := w.cells[dir.at];
    if node.kind == M.Device then DeviceItems(w, dir)
    else if IsModuleContainer(node) || node.kind == M.Module then ModuleDirItems(w, dir)
    else if IsClassDir(node) then ClassItems(w, dir)
    else StaticItems(w.cells, dir, node.children)
  }
}
