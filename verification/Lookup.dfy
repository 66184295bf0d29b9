/**
 Name lookup (kext/sysfs_vnops.c:426-646) against listing: what a name resolves to is the first
 entry listed under it, and ".." leads back.
 */
module Lookup {
  import opened Wrappers
  import opened DevicePath
  import opened Directories
  import opened Dirents
  import opened Registry
  import opened Snapshot
  import opened StructureBuild
  import M = StructureMemory

  ghost predicate IsDotName(name: string) {
    name == "." || name == ".."
  }

  // ---------- The independent meaning: the first listed entry of that name

  ghost function FirstItem(items: seq<Item>, name: string): Option<Item> {
    if items == [] then None
    else
      var n := |items| - 1;
      var before := FirstItem(items[..n], name);
      if before.Some? then before else if items[n].name == name then Some(items[n]) else None
  }

  lemma {:induction false} FirstItemConcat(a: seq<Item>, b: seq<Item>, name: string)
    ensures FirstItem(a + b, name) == if FirstItem(a, name).Some? then FirstItem(a, name) else FirstItem(b, name)
    decreases |b|
  {
    if b == [] {
      assert a + b == a;
    } else {
      assert (a + b)[..|a + b| - 1] == a + b[..|b| - 1];
      FirstItemConcat(a, b[..|b| - 1], name);
    }
  }

  // ---------- What the branches of lookup look for

  /** The first pair of that name. */
  ghost function FirstPair(pairs: seq<(string, nat)>, name: string): Option<nat> {
    if pairs == [] then None
    else
      var n := |pairs| - 1;
      var before := FirstPair(pairs[..n], name);
      if before.Some? then before else if pairs[n].0 == name then Some(pairs[n].1) else None
  }

  /** The first child of that name. */
  ghost function FirstChild(cells: map<nat, M.Node>, kids: seq<nat>, name: string): (child: Option<nat>)
    requires forall k :: 0 <= k < |kids| ==> kids[k] in cells
    ensures child.Some? ==> child.value in cells && child.value in kids && cells[child.value].name == name
  {
    if kids == [] then None
    else
      var n := |kids| - 1;
      var before := FirstChild(cells, kids[..n], name);
      if before.Some? then before else if cells[kids[n]].name == name then Some(kids[n]) else None
  }

  /** The registry child of that name. */
  ghost function NamedChild(snap: Option<Built>, regid: nat, name: string): Option<nat> {
    if snap.None? then None else NamedUnder(snap.value, regid, name)
  }

  ghost function NamedMember(snap: Option<Built>, classId: nat, wholeOnly: bool, name: string): Option<nat> {
    if snap.None? then None else ClassNamed(snap.value.base, classId, wholeOnly, name)
  }

  ghost function InContainer(w: World, dir: FsNode, name: string): Option<FsNode>
    requires WellFormed(w) && dir.at in w.cells
  {
    var tag := FirstPair(w.modules, name);
    var marker := FirstOfKind(w.cells, w.cells[dir.at].children, M.Module);
    if tag.None? || marker.None? then None
    else Some(FsNode(marker.value, NodeId(tag.value, DIR_OBJID, w.cells[marker.value].baseId)))
  }

  ghost function InClass(w: World, dir: FsNode, name: string): Option<FsNode>
    requires WellFormed(w) && dir.at in w.cells
  {
    var node := w.cells[dir.at];
    var regid := NamedMember(w.snap, node.instance, node.flags.wholeOnly, name);
    var link := FirstOfKind(w.cells, node.children, M.Link);
    if regid.None? || link.None? then None
    else Some(FsNode(link.value, NodeId(regid.value, NO_OBJECTID, w.cells[link.value].baseId)))
  }

  ghost function InDevice(w: World, dir: FsNode, name: string): Option<FsNode>
    requires WellFormed(w) && dir.at in w.cells
  {
    var node, regid := w.cells[dir.at], dir.id.regid;
    var fixed :=
      if regid == NO_REGID && dir.id.objectid == DIR_OBJID then FirstChild(w.cells, node.children, name) else None;
    var attr := if regid != NO_REGID then FirstPair(DEVICE_ATTRS, name) else None;
    var child := NamedChild(w.snap, regid, name);
    if fixed.Some? then Some(FsNode(fixed.value, NodeId(NO_REGID, NO_OBJECTID, w.cells[fixed.value].baseId)))
    else if attr.Some? then Some(FsNode(dir.at, NodeId(regid, attr.value, node.baseId)))
    else if child.Some? then Some(FsNode(dir.at, NodeId(child.value, DIR_OBJID, node.baseId)))
    else None
  }

  /** Lines 493-617: what a name other than "." and ".." resolves to in a directory. */
  ghost function Resolved(w: World, dir: FsNode, name: string): Option<FsNode>
    requires WellFormed(w) && dir.at in w.cells
  {
    var node := w.cells[dir.at];
    if IsModuleContainer(node) then InContainer(w, dir, name)
    else if node.kind == M.Module && dir.id.objectid == DIR_OBJID then
      var attr := FirstPair(MODULE_ATTRS, name);
      if attr.None? then None else Some(FsNode(dir.at, NodeId(dir.id.regid, attr.value, node.baseId)))
    else if IsClassDir(node) then InClass(w, dir, name)
    else if node.kind == M.Device then InDevice(w, dir, name)
    else
      var child := FirstChild(w.cells, node.children, name);
      if child.None? then None
      else Some(FsNode(child.value, NodeId(dir.id.regid, dir.id.objectid, w.cells[child.value].baseId)))
  }

  /** Lines 426-470: what ".." resolves to. */
  ghost function Parent(w: World, dir: FsNode): FsNode
    requires WellFormed(w) && dir.at in w.cells
  {
    var node := w.cells[dir.at];
    var up := if node.parent.Some? then node.parent.value else dir.at;
    if node.kind == M.Module && dir.id.objectid == DIR_OBJID then
      FsNode(up, NodeId(NO_REGID, NO_OBJECTID, w.cells[up].baseId))
    else if node.kind == M.Device && dir.id.regid != NO_REGID then
      var regid := if w.snap.None? then None else ParentRegid(w.snap.value.base, dir.id.regid);
      FsNode(dir.at, NodeId(if regid.Some? then regid.value else NO_REGID, DIR_OBJID, node.baseId))
    else FsNode(up, ParentIdOf(w.cells, dir))
  }

  // ---------- The first entry, row by row

  lemma {:induction false} FirstInRow(pairs: seq<(string, nat)>, dtype: EntryType, objectid: nat, baseId: nat,
                                      name: string)
    ensures FirstItem(RowOf(pairs, dtype, objectid, baseId), name) ==
            var regid := FirstPair(pairs, name);
            if regid.None? then None else Some(Item(name, dtype, NodeId(regid.value, objectid, baseId)))
  {
    if pairs != [] {
      var n := |pairs| - 1;
      FirstInRow(pairs[..n], dtype, objectid, baseId, name);
      var row := RowOf(pairs, dtype, objectid, baseId);
      assert row[..n] == RowOf(pairs[..n], dtype, objectid, baseId);
    }
  }

  lemma {:induction false} FirstAttribute(attrs: seq<(string, nat)>, regid: nat, baseId: nat, name: string)
    ensures FirstItem(Attributes(attrs, regid, baseId), name) ==
            var attr := FirstPair(attrs, name);
            if attr.None? then None else Some(Item(name, Regular, NodeId(regid, attr.value, baseId)))
  {
    if attrs != [] {
      var n := |attrs| - 1;
      FirstAttribute(attrs[..n], regid, baseId, name);
      var row := Attributes(attrs, regid, baseId);
      assert row[..n] == Attributes(attrs[..n], regid, baseId);
    }
  }

  lemma {:induction false} FirstDeviceStatic(cells: map<nat, M.Node>, kids: seq<nat>, name: string)
    requires forall k :: 0 <= k < |kids| ==> kids[k] in cells
    ensures var child, item := FirstChild(cells, kids, name), FirstItem(DeviceStatics(cells, kids), name);
            if child.None? then item.None?
            else
              && item.Some? && item.value.id == NodeId(NO_REGID, NO_OBJECTID, cells[child.value].baseId)
              && item.value.dtype != Symlink
              && (item.value.dtype == Directory <==> IsDirectoryKind(cells[child.value].kind))
  {
    if kids != [] {
      var n := |kids| - 1;
      FirstDeviceStatic(cells, kids[..n], name);
      var row := DeviceStatics(cells, kids);
      assert row[..n] == DeviceStatics(cells, kids[..n]);
    }
  }

  lemma {:induction false} FirstStatic(cells: map<nat, M.Node>, dir: FsNode, kids: seq<nat>, name: string)
    requires TreeNode(cells, dir.at) && kids <= cells[dir.at].children && !IsDotName(name)
    requires forall k :: 0 <= k < |kids| ==> kids[k] in cells
    ensures var child, item := FirstChild(cells, kids, name), FirstItem(StaticItems(cells, dir, kids), name);
            if child.None? then item.None?
            else
              && item.Some? && item.value.id == NodeId(dir.id.regid, dir.id.objectid, cells[child.value].baseId)
              && (item.value.dtype == Regular <==> cells[child.value].kind == M.File)
              && (item.value.dtype == Symlink <==> cells[child.value].kind == M.Link)
  {
    if kids != [] {
      var n := |kids| - 1;
      FirstStatic(cells, dir, kids[..n], name);
      assert kids[n] == cells[dir.at].children[n];
      var row := StaticItems(cells, dir, kids);
      assert row[..|row| - 1] == StaticItems(cells, dir, kids[..n]);
    }
  }

  lemma DotsDoNotMatch(id: NodeId, rest: seq<Item>, name: string)
    requires !IsDotName(name)
    ensures FirstItem(Dots(id) + rest, name) == FirstItem(rest, name)
  {
    var dots := Dots(id);
    assert dots[..1][..0] == [] && FirstItem(dots[..1], name).None?;
    FirstItemConcat(dots, rest, name);
  }

  // ---------- The rows that come from the snapshot

  lemma {:induction false} FirstNamedSnoc(nodes: seq<SnapNode>, list: seq<nat>, name: string)
    requires list != [] && forall k :: 0 <= k < |list| ==> list[k] < |nodes|
    ensures var n, before := |list| - 1, FirstNamed(nodes, list[..|list| - 1], name);
            FirstNamed(nodes, list, name) ==
            if before.Some? then before else if NodeDisplay(nodes, list[n]) == name then Some(list[n]) else None
  {
    var n := |list| - 1;
    if n > 0 {
      var rest := list[1..];
      FirstNamedSnoc(nodes, rest, name);
      assert rest[..n - 1] == list[..n][1..] && rest[n - 1] == list[n] && list[..n][0] == list[0];
    } else {
      assert list[..n] == [] && list[1..] == [];
    }
  }

  /** Display names that fit the listing's buffer are found as they are listed. */
  lemma {:induction false} FirstShown(base: seq<SnapNode>, kids: seq<nat>, name: string)
    requires forall k :: 0 <= k < |kids| ==> 1 <= kids[k] < |base| && |NodeDisplay(base, kids[k])| < NAME_BUFFER
    ensures FirstNamed(base, kids, name).Some? ==> FirstNamed(base, kids, name).value < |base|
    ensures FirstPair(Shown(base, kids), name) ==
            var child := FirstNamed(base, kids, name); if child.None? then None else Some(base[child.value].regid)
  {
    if kids != [] {
      var n := |kids| - 1;
      FirstShown(base, kids[..n], name);
      FirstNamedSnoc(base, kids, name);
      var pairs := Shown(base, kids);
      assert pairs[..n] == Shown(base, kids[..n]);
    }
  }

  lemma FirstOfChildren(snap: Option<Built>, regid: nat, name: string)
    requires snap.Some? ==> snap.value.base != []
    ensures NamedChild(snap, regid, name) == FirstPair(ChildPairs(snap, regid), name)
  {
    if snap.Some? && regid in IndexMap(snap.value.base) {
      var base, kids := snap.value.base, ChildList(snap.value, IndexMap(snap.value.base)[regid]);
      forall k | 0 <= k < |kids| ensures |NodeDisplay(base, kids[k])| < NAME_BUFFER {
        FullDisplay(snap.value, IndexMap(base)[regid], k);
      }
      FirstShown(base, kids, name);
    }
  }

  lemma FirstPairSnoc(pairs: seq<(string, nat)>, pair: (string, nat), name: string)
    ensures FirstPair(pairs + [pair], name) ==
            if FirstPair(pairs, name).Some? then FirstPair(pairs, name)
            else if pair.0 == name then Some(pair.1) else None
  {
    assert (pairs + [pair])[..|pairs|] == pairs;
  }

  lemma DeviceNamesSnoc(base: seq<SnapNode>, members: seq<nat>, i: nat)
    requires (forall k :: 0 <= k < |members| ==> members[k] < |base|) && i < |base| && |base[i].bsdName| < BSD_NAME_MAX
    ensures DeviceNames(base, members + [i]) == DeviceNames(base, members) + [(base[i].bsdName, base[i].regid)]
  {
    assert (members + [i])[..|members|] == members;
  }

  lemma {:induction false} FirstOfDeviceNames(base: seq<SnapNode>, classId: nat, wholeOnly: bool, name: string, n: nat)
    requires n <= |base| && ShortNames(base)
    ensures FirstPair(DeviceNames(base, MembersBelow(base, classId, wholeOnly, n)), name) ==
            var i := FirstMemberNamed(base, classId, wholeOnly, name, n);
            if i.None? then None else Some(base[i.value].regid)
  {
    if n > 1 {
      FirstOfDeviceNames(base, classId, wholeOnly, name, n - 1);
      var before := MembersBelow(base, classId, wholeOnly, n - 1);
      if IsMember(base[n - 1], classId, wholeOnly) {
        DeviceNamesSnoc(base, before, n - 1);
        FirstPairSnoc(DeviceNames(base, before), (base[n - 1].bsdName, base[n - 1].regid), name);
      } else {
        assert MembersBelow(base, classId, wholeOnly, n) == before;
      }
    }
  }

  lemma FirstOfMembers(snap: Option<Built>, classId: nat, wholeOnly: bool, name: string)
    requires snap.Some? ==> snap.value.base != []
    ensures NamedMember(snap, classId, wholeOnly, name) == FirstPair(MemberPairs(snap, classId, wholeOnly), name)
  {
    if snap.Some? { FirstOfDeviceNames(snap.value.base, classId, wholeOnly, name, |snap.value.base|); }
  }

  // ---------- Lookup agrees with listing

  /** What the vnode of a node is: for a device or module node the object id tells the directory from its attributes. */
  predicate IsDirectory(cells: map<nat, M.Node>, node: FsNode)
    requires node.at in cells
  {
    var kind := cells[node.at].kind;
    if kind == M.Device || kind == M.Module then node.id.objectid == DIR_OBJID else IsDirectoryKind(kind)
  }

  /** The type of that vnode, as a listing would give it (kext/sysfs_vnops.c:1513-1521, kext/sysfs_subr.c:23-55). */
  function TypeOf(cells: map<nat, M.Node>, node: FsNode): EntryType
    requires node.at in cells
  {
    if IsDirectory(cells, node) then Directory else if cells[node.at].kind == M.Link then Symlink else Regular
  }

  /** A hit is the entry, and its structure node is the one the id names; a miss is no entry. */
  ghost predicate Agrees(cells: map<nat, M.Node>, hit: Option<FsNode>, item: Option<Item>) {
    if item.None? then hit.None?
    else
      hit.Some? && hit.value.id == item.value.id && hit.value.at in cells &&
      cells[hit.value.at].baseId == hit.value.id.baseId
  }

  lemma FirstOfParts(id: NodeId, row: seq<Item>, kids: seq<Item>, name: string)
    requires !IsDotName(name)
    ensures FirstItem(Dots(id) + row + kids, name) ==
            if FirstItem(row, name).Some? then FirstItem(row, name) else FirstItem(kids, name)
  {
    FirstItemConcat(Dots(id) + row, kids, name);
    DotsDoNotMatch(id, row, name);
  }

  lemma DeviceAgrees(w: World, dir: FsNode, name: string)
    requires WellFormed(w) && dir.at in w.cells && dir.id.objectid == DIR_OBJID && !IsDotName(name)
    ensures Agrees(w.cells, InDevice(w, dir, name), FirstItem(DeviceItems(w, dir), name))
  {
    var node, pairs := w.cells[dir.at], ChildPairs(w.snap, dir.id.regid);
    FirstOfParts(SelfId(w.cells, dir), DeviceRow(w.cells, dir), RowOf(pairs, Directory, DIR_OBJID, node.baseId), name);
    FirstInRow(pairs, Directory, DIR_OBJID, node.baseId, name);
    FirstOfChildren(w.snap, dir.id.regid, name);
    if dir.id.regid != NO_REGID {
      FirstAttribute(DEVICE_ATTRS, dir.id.regid, node.baseId, name);
    } else {
      FirstDeviceStatic(w.cells, node.children, name);
    }
  }

  lemma ModuleAgrees(w: World, dir: FsNode, name: string)
    requires WellFormed(w) && dir.at in w.cells && dir.id.objectid == DIR_OBJID && !IsDotName(name)
    requires IsModuleContainer(w.cells[dir.at]) || w.cells[dir.at].kind == M.Module
    ensures Agrees(w.cells, Resolved(w, dir, name), FirstItem(ModuleDirItems(w, dir), name))
  {
    var node := w.cells[dir.at];
    var items := ModuleDirItems(w, dir);
    DotsDoNotMatch(SelfId(w.cells, dir), items[2..], name);
    assert items == Dots(SelfId(w.cells, dir)) + items[2..];
    if IsModuleContainer(node) {
      var marker := FirstOfKind(w.cells, node.children, M.Module);
      if marker.Some? { FirstInRow(w.modules, Directory, DIR_OBJID, w.cells[marker.value].baseId, name); }
    } else {
      FirstAttribute(MODULE_ATTRS, dir.id.regid, node.baseId, name);
    }
  }

  /**
   In every directory but a class directory, a name resolves to the first entry listed under it, with
   the same id, and to nothing just if none is.
   */
  lemma LookupAgreesWithListing(w: World, dir: FsNode, name: string)
    requires WellFormed(w) && dir.at in w.cells && IsDirectory(w.cells, dir) && !IsDotName(name)
    requires IsModuleContainer(w.cells[dir.at]) ==> dir.id.objectid == NO_OBJECTID
    requires IsModuleContainer(w.cells[dir.at]) || !IsClassDir(w.cells[dir.at])
    ensures Agrees(w.cells, Resolved(w, dir, name), FirstItem(ItemsOf(w, dir), name))
  {
    var node := w.cells[dir.at];
    if node.kind == M.Device { DeviceAgrees(w, dir, name); }
    else if IsModuleContainer(node) || node.kind == M.Module { ModuleAgrees(w, dir, name); }
    else { FirstStatic(w.cells, dir, node.children, name); }
  }

  /**
   In a class directory with its marker, a name resolves to the first member listed under it; the id
   differs in its base only.
   */
  lemma {:induction false} ClassLookup(w: World, dir: FsNode, name: string)
    requires WellFormed(w) && dir.at in w.cells && IsClassDir(w.cells[dir.at]) && !IsModuleContainer(w.cells[dir.at])
    requires !IsDotName(name)
    ensures var hit, item := Resolved(w, dir, name), FirstItem(ItemsOf(w, dir), name);
            var link := FirstOfKind(w.cells, w.cells[dir.at].children, M.Link);
            if link.None? then hit.None?
            else if item.None? then hit.None?
            else
              && hit == Some(FsNode(link.value, item.value.id.(baseId := w.cells[link.value].baseId)))
              && item.value.dtype == Symlink == TypeOf(w.cells, hit.value)
  {
    var node := w.cells[dir.at];
    var pairs := MemberPairs(w.snap, node.instance, node.flags.wholeOnly);
    var row := RowOf(pairs, Symlink, NO_OBJECTID, node.baseId);
    DotsDoNotMatch(SelfId(w.cells, dir), row, name);
    FirstInRow(pairs, Symlink, NO_OBJECTID, node.baseId, name);
    FirstOfMembers(w.snap, node.instance, node.flags.wholeOnly, name);
  }

  /**
   The directory has no static entry whose type listing cannot tell: no symlink or module in
   /sys/devices, and no device or module elsewhere under an object id.
   */
  ghost predicate TypeIsKnown(w: World, dir: FsNode, hit: FsNode)
    requires dir.at in w.cells && hit.at in w.cells
  {
    var node, kind := w.cells[dir.at], w.cells[hit.at].kind;
    if IsModuleContainer(node) || node.kind == M.Module || IsClassDir(node) then true
    else if node.kind == M.Device then hit.at != dir.at ==> kind != M.Link && kind != M.Module
    else kind == M.Device || kind == M.Module ==> dir.id.objectid == DIR_OBJID
  }

  /** The first item of a device directory, row by row. */
  lemma {:induction false} FirstOfDevice(w: World, dir: FsNode, name: string)
    requires WellFormed(w) && dir.at in w.cells && w.cells[dir.at].kind == M.Device && !IsDotName(name)
    ensures var item, child := FirstItem(DeviceRow(w.cells, dir), name), NamedChild(w.snap, dir.id.regid, name);
            FirstItem(ItemsOf(w, dir), name) ==
            if item.Some? then item
            else if child.None? then None
            else Some(Item(name, Directory, NodeId(child.value, DIR_OBJID, w.cells[dir.at].baseId)))
  {
    var node, pairs := w.cells[dir.at], ChildPairs(w.snap, dir.id.regid);
    FirstOfParts(SelfId(w.cells, dir), DeviceRow(w.cells, dir), RowOf(pairs, Directory, DIR_OBJID, node.baseId), name);
    FirstInRow(pairs, Directory, DIR_OBJID, node.baseId, name);
    FirstOfChildren(w.snap, dir.id.regid, name);
  }

  lemma {:induction false} DeviceTypes(w: World, dir: FsNode, name: string)
    requires WellFormed(w) && dir.at in w.cells
    requires w.cells[dir.at].kind == M.Device && !IsModuleContainer(w.cells[dir.at])
    requires !IsClassDir(w.cells[dir.at]) && dir.id.objectid == DIR_OBJID && !IsDotName(name)
    requires Resolved(w, dir, name).Some?
    ensures var hit, item := Resolved(w, dir, name).value, FirstItem(ItemsOf(w, dir), name);
            hit.at in w.cells && item.Some? && (item.value.dtype == TypeOf(w.cells, hit) <==> TypeIsKnown(w, dir, hit))
  {
    var node := w.cells[dir.at];
    FirstOfDevice(w, dir, name);
    if dir.id.regid != NO_REGID {
      AttributesHaveIds(name);
      FirstAttribute(DEVICE_ATTRS, dir.id.regid, node.baseId, name);
    } else {
      assert TreeNode(w.cells, dir.at);
      FirstDeviceStatic(w.cells, node.children, name);
    }
  }

  lemma {:induction false} ContainerTypes(w: World, dir: FsNode, name: string)
    requires WellFormed(w) && dir.at in w.cells && !IsDotName(name)
    requires IsModuleContainer(w.cells[dir.at]) && Resolved(w, dir, name).Some?
    ensures var hit, item := Resolved(w, dir, name).value, FirstItem(ItemsOf(w, dir), name);
            hit.at in w.cells && item.Some? && item.value.dtype == Directory == TypeOf(w.cells, hit)
  {
    var marker := FirstOfKind(w.cells, w.cells[dir.at].children, M.Module);
    var row := RowOf(w.modules, Directory, DIR_OBJID, w.cells[marker.value].baseId);
    DotsDoNotMatch(SelfId(w.cells, dir), row, name);
    FirstInRow(w.modules, Directory, DIR_OBJID, w.cells[marker.value].baseId, name);
  }

  lemma {:induction false} ModuleTypes(w: World, dir: FsNode, name: string)
    requires WellFormed(w) && dir.at in w.cells && dir.id.objectid == DIR_OBJID && !IsDotName(name)
    requires w.cells[dir.at].kind == M.Module && Resolved(w, dir, name).Some?
    ensures var hit, item := Resolved(w, dir, name).value, FirstItem(ItemsOf(w, dir), name);
            hit.at in w.cells && item.Some? && item.value.dtype == Regular == TypeOf(w.cells, hit)
  {
    var node := w.cells[dir.at];
    DotsDoNotMatch(SelfId(w.cells, dir), Attributes(MODULE_ATTRS, dir.id.regid, node.baseId), name);
    AttributesHaveIds(name);
    FirstAttribute(MODULE_ATTRS, dir.id.regid, node.baseId, name);
  }

  lemma StaticTypes(w: World, dir: FsNode, name: string)
    requires WellFormed(w) && dir.at in w.cells && IsDirectory(w.cells, dir) && !IsDotName(name)
    requires w.cells[dir.at].kind != M.Device && w.cells[dir.at].kind != M.Module
    requires !IsModuleContainer(w.cells[dir.at]) && !IsClassDir(w.cells[dir.at]) && Resolved(w, dir, name).Some?
    ensures var hit, item := Resolved(w, dir, name).value, FirstItem(ItemsOf(w, dir), name);
            hit.at in w.cells && item.Some? && (item.value.dtype == TypeOf(w.cells, hit) <==> TypeIsKnown(w, dir, hit))
  {
    assert TreeNode(w.cells, dir.at);
    FirstStatic(w.cells, dir, w.cells[dir.at].children, name);
    var child := FirstChild(w.cells, w.cells[dir.at].children, name).value;
    assert w.cells[child].kind != M.Root;
  }

  /**
   In every kind of directory: the type a name is listed with is the type of the vnode it is looked up
   to, just if the directory holds no static entry whose type listing cannot tell.
   */
  lemma TypesAgreeIff(w: World, dir: FsNode, name: string)
    requires WellFormed(w) && dir.at in w.cells && IsDirectory(w.cells, dir) && !IsDotName(name)
    requires Resolved(w, dir, name).Some?
    ensures var hit, item := Resolved(w, dir, name).value, FirstItem(ItemsOf(w, dir), name);
            hit.at in w.cells && item.Some? && (item.value.dtype == TypeOf(w.cells, hit) <==> TypeIsKnown(w, dir, hit))
  {
    var node := w.cells[dir.at];
    if IsModuleContainer(node) { ContainerTypes(w, dir, name); }
    else if node.kind == M.Module { ModuleTypes(w, dir, name); }
    else if IsClassDir(node) { ClassLookup(w, dir, name); }
    else if node.kind == M.Device { DeviceTypes(w, dir, name); }
    else { StaticTypes(w, dir, name); }
  }

  // ---------- Attribute files

  /** The object id of a file of a module directory, or 0. */
  function ModuleFileId(name: string): nat {
    match name
    case "refcnt" => 1
    case "coresize" => 2
    case "initstate" => 3
    case "version" => 4
    case _ => 0
  }

  lemma {:induction false} ModuleAttribute(name: string)
    ensures FirstPair(MODULE_ATTRS, name) == if ModuleFileId(name) == 0 then None else Some(ModuleFileId(name))
  {
    var one, two := [("refcnt", 1)], [("refcnt", 1), ("coresize", 2)];
    var three := [("refcnt", 1), ("coresize", 2), ("initstate", 3)];
    FirstPairSnoc([], ("refcnt", 1), name);
    FirstPairSnoc(one, ("coresize", 2), name);
    FirstPairSnoc(two, ("initstate", 3), name);
    FirstPairSnoc(three, ("version", 4), name);
    assert [] + [("refcnt", 1)] == one && one + [("coresize", 2)] == two && two + [("initstate", 3)] == three;
    assert MODULE_ATTRS == three + [("version", 4)];
  }

  /** The four files of a module directory, by name and object id, and no other. */
  lemma {:induction false} ModuleFiles(w: World, dir: FsNode, name: string)
    requires WellFormed(w) && dir.at in w.cells && w.cells[dir.at].kind == M.Module && dir.id.objectid == DIR_OBJID
    ensures var file := ModuleFileId(name);
            Resolved(w, dir, name) ==
            if file == 0 then None else Some(FsNode(dir.at, NodeId(dir.id.regid, file, w.cells[dir.at].baseId)))
  {
    ModuleAttribute(name);
  }

  /** The one file of a device directory below the root of the registry. */
  lemma DeviceFile(w: World, dir: FsNode)
    requires WellFormed(w) && dir.at in w.cells && w.cells[dir.at].kind == M.Device && dir.id.regid != NO_REGID
    ensures Resolved(w, dir, "name") == Some(FsNode(dir.at, NodeId(dir.id.regid, 1, w.cells[dir.at].baseId)))
    ensures forall name :: name != "name" ==> FirstPair(DEVICE_ATTRS, name).None?
  {
    assert DEVICE_ATTRS[..0] == [];
  }

  // ---------- "." and ".." in a static directory

  lemma {:induction false} StaticItemsAt(cells: map<nat, M.Node>, dir: FsNode, kids: seq<nat>, k: nat)
    requires TreeNode(cells, dir.at) && kids <= cells[dir.at].children && k < |kids|
    requires forall i :: 0 <= i < |kids| ==> kids[i] in cells
    ensures |StaticItems(cells, dir, kids)| == |kids|
    ensures StaticItems(cells, dir, kids)[k] == StaticItem(cells, dir, cells[kids[k]])
  {
    var n := |kids| - 1;
    assert kids[n] == cells[dir.at].children[n];
    if n > 0 { StaticItemsAt(cells, dir, kids[..n], if k < n then k else 0); }
  }

  /**
   Every child is listed, under its name and with the type of its kind; the entry made for "." has the
   id of the directory, and the one made for ".." the id that ".." is looked up to.
   */
  lemma StaticDots(w: World, dir: FsNode, k: nat)
    requires WellFormed(w) && dir.at in w.cells
    requires ItemsOf(w, dir) == StaticItems(w.cells, dir, w.cells[dir.at].children)
    requires w.cells[dir.at].kind == M.Root || w.cells[dir.at].kind == M.Dir
    requires k < |w.cells[dir.at].children|
    ensures |ItemsOf(w, dir)| == |w.cells[dir.at].children|
    ensures var child := w.cells[w.cells[dir.at].children[k]];
            && ItemsOf(w, dir)[k].name == child.name
            && (ItemsOf(w, dir)[k].dtype == Regular <==> child.kind == M.File)
            && (ItemsOf(w, dir)[k].dtype == Symlink <==> child.kind == M.Link)
            && (child.kind == M.DirThis ==> ItemsOf(w, dir)[k] == Item(".", Directory, dir.id))
            && (child.kind == M.DirParent ==> ItemsOf(w, dir)[k] == Item("..", Directory, Parent(w, dir).id))
  {
    assert TreeNode(w.cells, dir.at);
    StaticItemsAt(w.cells, dir, w.cells[dir.at].children, k);
  }

  lemma {:induction false} FirstPairFinds(pairs: seq<(string, nat)>, k: nat)
    requires k < |pairs|
    ensures FirstPair(pairs, pairs[k].0).Some?
  {
    if k < |pairs| - 1 { FirstPairFinds(pairs[..|pairs| - 1], k); }
  }

  lemma {:induction false} FirstPairIsListed(pairs: seq<(string, nat)>, name: string)
    requires FirstPair(pairs, name).Some?
    ensures exists k :: 0 <= k < |pairs| && pairs[k].0 == name
  {
    var n := |pairs| - 1;
    if FirstPair(pairs[..n], name).Some? {
      FirstPairIsListed(pairs[..n], name);
      var k :| 0 <= k < n && pairs[..n][k].0 == name;
      assert pairs[k].0 == name;
    } else {
      assert pairs[n].0 == name;
    }
  }

  /**
   A class directory can look up all it lists just if it has a marker to present members through, or
   none to present. The cpuN directories have no marker.
   */
  lemma ClassListingIsUsableIff(w: World, dir: FsNode)
    requires WellFormed(w) && dir.at in w.cells && IsClassDir(w.cells[dir.at]) && !IsModuleContainer(w.cells[dir.at])
    ensures var node := w.cells[dir.at];
            var pairs := MemberPairs(w.snap, node.instance, node.flags.wholeOnly);
            (forall name {:trigger Resolved(w, dir, name)} :: !IsDotName(name) && FirstPair(pairs, name).Some? ==>
               Resolved(w, dir, name).Some?) <==>
            FirstOfKind(w.cells, node.children, M.Link).Some? || forall k :: 0 <= k < |pairs| ==> IsDotName(pairs[k].0)
  {
    var node := w.cells[dir.at];
    var pairs := MemberPairs(w.snap, node.instance, node.flags.wholeOnly);
    forall name | !IsDotName(name)
      ensures Resolved(w, dir, name).Some? <==>
              FirstPair(pairs, name).Some? && FirstOfKind(w.cells, node.children, M.Link).Some?
    {
      FirstOfMembers(w.snap, node.instance, node.flags.wholeOnly, name);
      if FirstPair(pairs, name).Some? { FirstPairIsListed(pairs, name); }
    }
    forall k | 0 <= k < |pairs| ensures FirstPair(pairs, pairs[k].0).Some? { FirstPairFinds(pairs, k); }
    if FirstOfKind(w.cells, node.children, M.Link).None? && exists k :: 0 <= k < |pairs| && !IsDotName(pairs[k].0) {
      var k :| 0 <= k < |pairs| && !IsDotName(pairs[k].0);
      assert Resolved(w, dir, pairs[k].0).None?;
    }
    forall name | !IsDotName(name) && FirstPair(pairs, name).Some?
      ensures exists k :: 0 <= k < |pairs| && !IsDotName(pairs[k].0)
    {
      FirstPairIsListed(pairs, name);
    }
  }

  lemma NoMarker(cells: map<nat, M.Node>, a: nat, lo: nat, hi: nat)
    requires TreeNode(cells, a) && ChildrenWithin(cells[a], lo, hi) && NoLinks(cells, lo, hi)
    ensures FirstOfKind(cells, cells[a].children, M.Link).None?
  {
    var kids := cells[a].children;
    assert forall k :: 0 <= k < |kids| ==> kids[k] in cells && cells[kids[k]].kind != M.Link;
    assert forall c :: c in kids ==> cells[c].kind != M.Link;
  }

  lemma FirstOfClassItems(w: World, dir: FsNode, name: string)
    requires WellFormed(w) && dir.at in w.cells && !IsDotName(name)
    ensures FirstItem(ClassItems(w, dir), name).Some? <==>
            NamedMember(w.snap, w.cells[dir.at].instance, w.cells[dir.at].flags.wholeOnly, name).Some?
  {
    var node := w.cells[dir.at];
    var pairs := MemberPairs(w.snap, node.instance, node.flags.wholeOnly);
    FirstOfMembers(w.snap, node.instance, node.flags.wholeOnly, name);
    FirstInRow(pairs, Symlink, NO_OBJECTID, node.baseId, name);
    DotsDoNotMatch(SelfId(w.cells, dir), RowOf(pairs, Symlink, NO_OBJECTID, node.baseId), name);
  }

  /**
   The directories cpuN and cpuN/topology have no marker, so nothing they list can be looked up; for N
   >= 1 what they list are the members of class N.
   */
  lemma CpuDirectoriesAreOpaque(w: World, p: nat, node: nat, c: nat, dir: FsNode, name: string)
    requires WellFormed(w) && CpuAt(w.cells, p, node, c) && c >= 1 && (dir.at == node || dir.at == node + 4)
    requires !IsModuleContainer(w.cells[dir.at]) && !IsDotName(name)
    ensures Resolved(w, dir, name).None?
    ensures FirstItem(ItemsOf(w, dir), name).Some? <==>
            NamedMember(w.snap, c, w.cells[dir.at].flags.wholeOnly, name).Some?
  {
    assert TreeNode(w.cells, dir.at);
    NoMarker(w.cells, dir.at, node, node + CPU_NODES);
    FirstOfClassItems(w, dir, name);
    assert ItemsOf(w, dir) == ClassItems(w, dir);
  }

  // ---------- ".." leads back

  /**
   The nodes lookup gives out: the id names the structure node, and only device and module nodes carry
   a registry id or load tag.
   */
  ghost predicate Proper(w: World, node: FsNode) {
    node.at in w.cells && node.id.baseId == w.cells[node.at].baseId &&
    (w.cells[node.at].kind != M.Device && w.cells[node.at].kind != M.Module && w.cells[node.at].kind != M.Link ==>
      node.id.regid == NO_REGID && node.id.objectid == NO_OBJECTID)
  }

  /** The parent the registry named for an entry was recorded too. */
  ghost predicate ParentCaptured(base: seq<SnapNode>, regid: nat) {
    regid in IndexMap(base) && IndexMap(base)[regid] < |base| &&
    base[IndexMap(base)[regid]].parentRegid in IndexMap(base)
  }

  /** Attribute files are not directories. */
  lemma AttributesHaveIds(name: string)
    ensures FirstPair(DEVICE_ATTRS, name) != Some(DIR_OBJID) && FirstPair(MODULE_ATTRS, name) != Some(DIR_OBJID)
  {
    FirstPairIsNotZero(DEVICE_ATTRS, name);
    FirstPairIsNotZero(MODULE_ATTRS, name);
  }

  lemma {:induction false} FirstPairIsNotZero(pairs: seq<(string, nat)>, name: string)
    requires forall k :: 0 <= k < |pairs| ==> pairs[k].1 != 0
    ensures FirstPair(pairs, name) != Some(0)
  {
    if pairs != [] { FirstPairIsNotZero(pairs[..|pairs| - 1], name); }
  }

  /**
   A registry child of the entry `regid` names that entry as its parent, just if its parent was
   recorded; an orphan does not.
   */
  lemma ChildNamesParent(v: Built, regid: nat, name: string, child: nat)
    requires v.base != [] && DistinctIds(v.base) && NamedUnder(v, regid, name) == Some(child)
    ensures child != NO_REGID && ParentRegid(v.base, child).Some?
    ensures ParentRegid(v.base, child) == Some(regid) <==> ParentCaptured(v.base, child)
  {
    var base := v.base;
    var p := IndexMap(base)[regid];
    var kids := ChildList(v, p);
    var i := FirstNamed(base, kids, name).value;
    FirstNamedIsNamed(base, kids, name);
    ChildrenInside(Parents(base), p, |base|);
    IndexMapIds(base, regid);
    IndexMapInverts(base, i);
    IndexMapInverts(base, 0);
    ParentsAt(base, |base|, i);
    IndexMapIds(base, base[i].parentRegid);
  }

  /** What lookup gives out is proper again. */
  lemma ResolvedIsProper(w: World, dir: FsNode, name: string)
    requires WellFormed(w) && Proper(w, dir) && IsDirectory(w.cells, dir) && Resolved(w, dir, name).Some?
    ensures Proper(w, Resolved(w, dir, name).value)
  {
    assert TreeNode(w.cells, dir.at);
  }

  lemma ChildLeadsBack(w: World, dir: FsNode, name: string, hit: FsNode)
    requires WellFormed(w) && Proper(w, dir) && IsDirectory(w.cells, dir)
    requires Resolved(w, dir, name) == Some(hit) && hit.at != dir.at && IsDirectory(w.cells, hit)
    ensures Parent(w, hit) == dir
  {
    assert TreeNode(w.cells, dir.at);
  }

  lemma RegistryChildLeadsBack(w: World, dir: FsNode, hit: FsNode)
    requires WellFormed(w) && Proper(w, dir) && w.cells[dir.at].kind == M.Device && dir.id.objectid == DIR_OBJID
    requires w.snap.Some?
    requires hit == FsNode(dir.at, NodeId(hit.id.regid, DIR_OBJID, w.cells[dir.at].baseId)) && hit.id.regid != NO_REGID
    ensures var up := ParentRegid(w.snap.value.base, hit.id.regid);
            Parent(w, hit) == dir <==> (if up.Some? then up.value else NO_REGID) == dir.id.regid
  {
  }

  /**
   From a directory found by name, ".." gives back the directory it was found in; for a registry child
   just if its parent was recorded.
   */
  lemma DotDotLeadsBackIff(w: World, dir: FsNode, name: string, hit: FsNode)
    requires WellFormed(w) && Proper(w, dir) && IsDirectory(w.cells, dir)
    requires w.snap.Some? ==> DistinctIds(w.snap.value.base)
    requires Resolved(w, dir, name) == Some(hit) && hit.at in w.cells && IsDirectory(w.cells, hit)
    ensures Parent(w, hit) == dir <==>
            (hit.at == dir.at ==> w.snap.Some? && ParentCaptured(w.snap.value.base, hit.id.regid))
  {
    if hit.at == dir.at {
      RegistryChild(w, dir, name, hit);
      ChildNamesParent(w.snap.value, dir.id.regid, name, hit.id.regid);
      RegistryChildLeadsBack(w, dir, hit);
    } else {
      ChildLeadsBack(w, dir, name, hit);
    }
  }

  // ---------- An entry whose parent is not in the snapshot

  /** One entry, below a parent that the walk did not yield. */
  function OrphanWalk(regid: nat, parentRegid: nat, name: string): seq<Entry> {
    [Entry(regid, parentRegid, Some(name), CLASS_NONE, None, false)]
  }

  /** It is recorded, and its parent is not. */
  lemma OrphanIsRecorded(walk: seq<Entry>, base: seq<SnapNode>, regid: nat, parentRegid: nat, name: string, cap: nat)
    requires regid != 0 && parentRegid != 0 && parentRegid != regid && |name| < NAME_MAX_STORED && cap >= 2
    requires walk == OrphanWalk(regid, parentRegid, name) && base == Recorded(walk, cap)
    ensures base == [ROOT, NodeOf(walk[0])] && DistinctIds(base) && parentRegid !in IndexMap(base)
  {
    assert IsFirst(walk, 0);
    assert TableAfter(walk, 0) == [ROOT] && TableAfter(walk, 1) == [ROOT] + [NodeOf(walk[0])];
    IndexMapIds(base, parentRegid);
  }

  /** It is the root's one child, under its own name. */
  lemma OrphanIsListed(base: seq<SnapNode>, node: SnapNode)
    requires base == [ROOT, node] && DistinctIds(base) && node.parentRegid !in IndexMap(base)
    ensures Children(base, 0) == [1] && NodeDisplay(base, 1) == node.name
  {
    var par := Parents(base);
    ParentsAt(base, 2, 1);
    assert par[1] == 0 && ChildrenBelow(par, 0, 1) == [];
  }

  lemma OrphanNode(v: Built, node: SnapNode)
    requires !v.degraded && v.base == [ROOT, node] && DistinctIds(v.base) && node.parentRegid !in IndexMap(v.base)
    ensures NamedUnder(v, NO_REGID, node.name) == Some(node.regid)
    ensures ParentRegid(v.base, node.regid) == Some(node.parentRegid)
  {
    OrphanIsListed(v.base, node);
    IndexMapInverts(v.base, 0);
    IndexMapInverts(v.base, 1);
    assert ChildList(v, 0) == [1];
  }

  lemma OrphanIsFound(v: Built, regid: nat, parentRegid: nat, name: string, cap: nat)
    requires regid != 0 && parentRegid != 0 && parentRegid != regid && |name| < NAME_MAX_STORED && cap >= 2
    requires !v.degraded && v.base == Recorded(OrphanWalk(regid, parentRegid, name), cap)
    ensures NamedUnder(v, NO_REGID, name) == Some(regid) && ParentRegid(v.base, regid) == Some(parentRegid)
    ensures parentRegid !in IndexMap(v.base)
  {
    var walk := OrphanWalk(regid, parentRegid, name);
    OrphanIsRecorded(walk, v.base, regid, parentRegid, name, cap);
    OrphanNode(v, NodeOf(walk[0]));
  }

  /** In /sys/devices the name is found, and ".." leads from there to another entry of the registry. */
  ghost predicate LeadsAway(w: World, dev: nat, regid: nat, up: nat, name: string)
    requires WellFormed(w) && dev in w.cells
  {
    var dir := FsNode(dev, NodeId(NO_REGID, DIR_OBJID, w.cells[dev].baseId));
    var hit := FsNode(dev, NodeId(regid, DIR_OBJID, w.cells[dev].baseId));
    Resolved(w, dir, name) == Some(hit) && Parent(w, hit) != dir &&
    Parent(w, hit) == FsNode(dev, NodeId(up, DIR_OBJID, w.cells[dev].baseId))
  }

  /** It is found in /sys/devices, but its ".." leads to an entry that is not there. */
  lemma OrphanDoesNotLeadBack(w: World, dev: nat, regid: nat, parentRegid: nat, name: string, cap: nat)
    requires regid != 0 && parentRegid != 0 && parentRegid != regid && |name| < NAME_MAX_STORED && cap >= 2
    requires WellFormed(w) && dev in w.cells && w.cells[dev].kind == M.Device
    requires w.snap.Some? && !w.snap.value.degraded
    requires w.snap.value.base == Recorded(OrphanWalk(regid, parentRegid, name), cap)
    requires FirstChild(w.cells, w.cells[dev].children, name).None?
    ensures LeadsAway(w, dev, regid, parentRegid, name) && parentRegid !in IndexMap(w.snap.value.base)
  {
    OrphanIsFound(w.snap.value, regid, parentRegid, name, cap);
    OrphanResolves(w, dev, regid, parentRegid, name);
  }

  lemma OrphanResolves(w: World, dev: nat, regid: nat, parentRegid: nat, name: string)
    requires WellFormed(w) && dev in w.cells && w.cells[dev].kind == M.Device && w.snap.Some? && regid != 0
    requires parentRegid != 0
    requires NamedUnder(w.snap.value, NO_REGID, name) == Some(regid)
    requires ParentRegid(w.snap.value.base, regid) == Some(parentRegid)
    requires FirstChild(w.cells, w.cells[dev].children, name).None?
    ensures LeadsAway(w, dev, regid, parentRegid, name)
  {
  }

  /** Only registry children share the structure node of the directory they are found in. */
  lemma RegistryChild(w: World, dir: FsNode, name: string, hit: FsNode)
    requires WellFormed(w) && Proper(w, dir) && IsDirectory(w.cells, dir)
    requires Resolved(w, dir, name) == Some(hit) && hit.at == dir.at && IsDirectory(w.cells, hit)
    ensures w.cells[dir.at].kind == M.Device && w.snap.Some?
    ensures NamedUnder(w.snap.value, dir.id.regid, name) == Some(hit.id.regid)
    ensures hit.id == NodeId(hit.id.regid, DIR_OBJID, w.cells[dir.at].baseId)
  {
    assert TreeNode(w.cells, dir.at);
    AttributesHaveIds(name);
  }
}
