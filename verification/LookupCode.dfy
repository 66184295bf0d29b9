/**
 sysfs_vnop_lookup() (kext/sysfs_vnops.c:387-650) as code, up to the node id it hands to
 sysfsnode_find(): its branches and loops resolve names as `Lookup` says.
 */
module LookupCode {
  import opened Wrappers
  import opened Directories
  import opened Dirents
  import opened Lookup
  import opened Readdir
  import opened Snapshot
  import opened StructureBuild
  import M = StructureMemory

  const ENOENT: nat := 2

  /** A node to find or create, the directory itself, or an error. */
  datatype Outcome = Target(node: FsNode) | Itself | Failed(errno: nat)

  /** TAILQ_FOREACH with strcmp(). */
  method FindChild(cells: map<nat, M.Node>, kids: seq<nat>, name: string) returns (child: Option<nat>)
    requires forall k :: 0 <= k < |kids| ==> kids[k] in cells
    ensures child == FirstChild(cells, kids, name)
  {
    for i := 0 to |kids|
      invariant FirstChild(cells, kids[..i], name).None?
    {
      assert kids[..i + 1][..i] == kids[..i];
      if cells[kids[i]].name == name {
        FirstChildStays(cells, kids, name, i + 1);
        return Some(kids[i]);
      }
    }
    assert kids[..|kids|] == kids;
    return None;
  }

  lemma {:induction false} FirstChildStays(cells: map<nat, M.Node>, kids: seq<nat>, name: string, i: nat)
    requires (forall k :: 0 <= k < |kids| ==> kids[k] in cells) && i <= |kids| &&
             FirstChild(cells, kids[..i], name).Some?
    ensures FirstChild(cells, kids, name) == FirstChild(cells, kids[..i], name)
  {
    if i == |kids| {
      assert kids[..i] == kids;
    } else {
      assert kids[..|kids| - 1][..i] == kids[..i];
      FirstChildStays(cells, kids[..|kids| - 1], name, i);
    }
  }

  /** A loop over a table of attributes or modules. */
  method FindPair(pairs: seq<(string, nat)>, name: string) returns (value: Option<nat>)
    ensures value == FirstPair(pairs, name)
  {
    for i := 0 to |pairs|
      invariant FirstPair(pairs[..i], name).None?
    {
      assert pairs[..i + 1][..i] == pairs[..i];
      if pairs[i].0 == name {
        FirstPairStays(pairs, name, i + 1);
        return Some(pairs[i].1);
      }
    }
    assert pairs[..|pairs|] == pairs;
    return None;
  }

  lemma {:induction false} FirstPairStays(pairs: seq<(string, nat)>, name: string, i: nat)
    requires i <= |pairs| && FirstPair(pairs[..i], name).Some?
    ensures FirstPair(pairs, name) == FirstPair(pairs[..i], name)
  {
    if i == |pairs| {
      assert pairs[..i] == pairs;
    } else {
      assert pairs[..|pairs| - 1][..i] == pairs[..i];
      FirstPairStays(pairs[..|pairs| - 1], name, i);
    }
  }

  /** The loop that looks for the shared marker among the children. */
  method FindKind(cells: map<nat, M.Node>, kids: seq<nat>, kind: M.Kind) returns (child: Option<nat>)
    requires forall k :: 0 <= k < |kids| ==> kids[k] in cells
    ensures child == FirstOfKind(cells, kids, kind)
  {
    var i := 0;
    while i < |kids| && cells[kids[i]].kind != kind
      invariant i <= |kids| && FirstOfKind(cells, kids, kind) == FirstOfKind(cells, kids[i..], kind)
    {
      assert kids[i..][1..] == kids[i + 1..];
      i := i + 1;
    }
    child := if i < |kids| then Some(kids[i]) else None;
  }

  method ChildNamed(snap: Snapshot?, regid: nat, name: string, ghost sv: Option<Built>) returns (child: Option<nat>)
    requires Tied(snap, sv)
    ensures child == NamedChild(sv, regid, name)
  {
    child := None;
    if snap != null {
      child := snap.ChildNamed(regid, name);
    }
  }

  method MemberNamed(snap: Snapshot?, classId: nat, wholeOnly: bool, name: string, ghost sv: Option<Built>)
    returns (regid: Option<nat>)
    requires Tied(snap, sv)
    ensures regid == NamedMember(sv, classId, wholeOnly, name)
  {
    regid := None;
    if snap != null {
      regid := snap.ClassChildNamed(classId, wholeOnly, name);
    }
  }

  /** Lines 556-603. */
  method ResolveInDevice(cells: map<nat, M.Node>, dir: FsNode, snap: Snapshot?, name: string, ghost w: World)
    returns (hit: Option<FsNode>)
    requires WellFormed(w) && w.cells == cells && dir.at in cells && Tied(snap, w.snap)
    ensures hit == InDevice(w, dir, name)
  {
    var node, regid := cells[dir.at], dir.id.regid;
    assert TreeNode(cells, dir.at);
    hit := None;
    if regid == NO_REGID && dir.id.objectid == DIR_OBJID {
      var fixed := FindChild(cells, node.children, name);
      if fixed.Some? {
        hit := Some(FsNode(fixed.value, NodeId(NO_REGID, NO_OBJECTID, cells[fixed.value].baseId)));
      }
    }
    if regid != NO_REGID && hit.None? {
      var attr := FindPair(DEVICE_ATTRS, name);
      if attr.Some? {
        hit := Some(FsNode(dir.at, NodeId(regid, attr.value, node.baseId)));
      }
    }
    if hit.None? {
      var child := ChildNamed(snap, regid, name, w.snap);
      if child.Some? {
        hit := Some(FsNode(dir.at, NodeId(child.value, DIR_OBJID, node.baseId)));
      }
    }
  }

  /** Lines 533-555. */
  method ResolveInClass(cells: map<nat, M.Node>, dir: FsNode, snap: Snapshot?, name: string, ghost w: World)
    returns (hit: Option<FsNode>)
    requires WellFormed(w) && w.cells == cells && dir.at in cells && Tied(snap, w.snap)
    ensures hit == InClass(w, dir, name)
  {
    var node := cells[dir.at];
    assert TreeNode(cells, dir.at);
    hit := None;
    var regid := MemberNamed(snap, node.instance, node.flags.wholeOnly, name, w.snap);
    if regid.Some? {
      var link := FindKind(cells, node.children, M.Link);
      if link.Some? {
        hit := Some(FsNode(link.value, NodeId(regid.value, NO_OBJECTID, cells[link.value].baseId)));
      }
    }
  }

  method ResolveInContainer(cells: map<nat, M.Node>, dir: FsNode, modules: seq<(string, nat)>, name: string,
                            ghost w: World) returns (hit: Option<FsNode>)
    requires WellFormed(w) && w.cells == cells && w.modules == modules && dir.at in cells
    ensures hit == InContainer(w, dir, name)
  {
    assert TreeNode(cells, dir.at);
    hit := None;
    var tag := FindPair(modules, name);
    if tag.Some? {
      var marker := FindKind(cells, cells[dir.at].children, M.Module);
      if marker.Some? {
        hit := Some(FsNode(marker.value, NodeId(tag.value, DIR_OBJID, cells[marker.value].baseId)));
      }
    }
  }

  /** Lines 493-617. */
  method ResolveName(cells: map<nat, M.Node>, dir: FsNode, snap: Snapshot?, modules: seq<(string, nat)>, name: string,
                     ghost w: World)
    returns (hit: Option<FsNode>)
    requires WellFormed(w) && w.cells == cells && w.modules == modules && dir.at in cells && Tied(snap, w.snap)
    ensures hit == Resolved(w, dir, name)
  {
    var node := cells[dir.at];
    assert TreeNode(cells, dir.at);
    hit := None;
    if IsModuleContainer(node) {
      hit := ResolveInContainer(cells, dir, modules, name, w);
    } else if node.kind == M.Module && dir.id.objectid == DIR_OBJID {
      var attr := FindPair(MODULE_ATTRS, name);
      if attr.Some? {
        hit := Some(FsNode(dir.at, NodeId(dir.id.regid, attr.value, node.baseId)));
      }
    } else if IsClassDir(node) {
      hit := ResolveInClass(cells, dir, snap, name, w);
    } else if node.kind == M.Device {
      hit := ResolveInDevice(cells, dir, snap, name, w);
    } else {
      var child := FindChild(cells, node.children, name);
      if child.Some? {
        hit := Some(FsNode(child.value, NodeId(dir.id.regid, dir.id.objectid, cells[child.value].baseId)));
      }
    }
  }

  /** Lines 426-470. */
  method ResolveParent(cells: map<nat, M.Node>, dir: FsNode, snap: Snapshot?, ghost w: World) returns (up: FsNode)
    requires WellFormed(w) && w.cells == cells && dir.at in cells && Tied(snap, w.snap)
    ensures up == Parent(w, dir)
  {
    var node := cells[dir.at];
    assert TreeNode(cells, dir.at);
    var above := if node.parent.Some? then node.parent.value else dir.at;
    if node.kind == M.Module && dir.id.objectid == DIR_OBJID {
      up := FsNode(above, NodeId(NO_REGID, NO_OBJECTID, cells[above].baseId));
    } else if node.kind == M.Device && dir.id.regid != NO_REGID {
      var parent := None;
      if snap != null {
        parent := snap.Parent(dir.id.regid);
      }
      up := FsNode(dir.at, NodeId(if parent.Some? then parent.value else NO_REGID, DIR_OBJID, node.baseId));
    } else {
      up := FsNode(above, ParentIdOf(cells, dir));
    }
  }

  /** sysfs_vnop_lookup(): the name's own errors, then "..", ".", and names. */
  method VnopLookup(cells: map<nat, M.Node>, dir: FsNode, snap: Snapshot?, modules: seq<(string, nat)>, name: string,
                    ghost w: World) returns (r: Outcome)
    requires WellFormed(w) && w.cells == cells && w.modules == modules && dir.at in cells && Tied(snap, w.snap)
    ensures r == Failed(EINVAL) <==> !IsDirectory(cells, dir) || name == ""
    ensures IsDirectory(cells, dir) && name == ".." ==> r == Target(Parent(w, dir))
    ensures r == Itself <==> IsDirectory(cells, dir) && name == "."
    ensures IsDirectory(cells, dir) && name != "" && !IsDotName(name) ==>
              r == if Resolved(w, dir, name).Some? then Target(Resolved(w, dir, name).value) else Failed(ENOENT)
  {
    if !IsDirectory(cells, dir) || |name| < 1 {
      return Failed(EINVAL);
    }
    if name == ".." {
      var up := ResolveParent(cells, dir, snap, w);
      return Target(up);
    }
    if name == "." {
      return Itself;
    }
    var hit := ResolveName(cells, dir, snap, modules, name, w);
    r := if hit.Some? then Target(hit.value) else Failed(ENOENT);
  }
}
