/**
 Class links end to end: in the tree a mount builds, every member that a class directory lists can
 be looked up there, and the target of the link it is leads to its device.
 */
module ClassLinks {
  import opened Wrappers
  import opened DevicePath
  import opened Directories
  import opened Dirents
  import opened LinkTarget
  import opened Lookup
  import opened Names
  import opened Planting
  import opened Registry
  import opened Snapshot
  import opened StructureBuild
  import opened StructureLife
  import M = StructureMemory

  // ---------- The class directories of a mount

  /** What a class directory of a mount is: below directories only, with one marker. */
  ghost predicate IsPlaced(w: World, n: nat, budget: seq<nat>, d: nat)
    requires WellFormed(w) && Planted(w.cells, n, budget)
  {
    && d + 3 < n && IsClassDir(w.cells[d]) && !IsModuleContainer(w.cells[d]) && OnlyDirs(w.cells, n, budget, d)
    && TreeNode(w.cells, d) && FirstOfKind(w.cells, w.cells[d].children, M.Link) == Some(d + 3)
    && w.cells[d + 3].parent == Some(d)
  }

  lemma MarkerIsFirst(cells: map<nat, M.Node>, d: nat)
    requires TreeNode(cells, d) && Marked(cells, d)
    ensures FirstOfKind(cells, cells[d].children, M.Link) == Some(d + 3)
  {
    var kids := cells[d].children;
    var link := FirstOfKind(cells, kids, M.Link);
    assert cells[kids[0]].kind != M.Link && cells[kids[1]].kind != M.Link && cells[kids[2]].kind == M.Link;
  }

  lemma ClassDirIsPlaced(w: World, n: nat, budget: seq<nat>, p: nat, d: nat, name: string, classId: nat)
    requires WellFormed(w) && Planted(w.cells, n, budget) && ClassAt(w.cells, p, d, name, classId)
    requires p in w.cells && OnlyDirs(w.cells, n, budget, p)
    ensures IsPlaced(w, n, budget, d)
  {
    assert TreeNode(w.cells, d) && Linked(w.cells, d);
    MarkerIsFirst(w.cells, d);
    assert w.cells[d].children[2] == d + 3;
  }

  lemma DeviceClassDirIsPlaced(w: World, n: nat, budget: seq<nat>, cpus: nat, d: nat)
    requires WellFormed(w) && MountTree(w.cells, n, budget, cpus) && IsDeviceClassDir(d)
    ensures IsPlaced(w, n, budget, d)
  {
    assert Linked(w.cells, 0) && Linked(w.cells, 10);
    if d == 3 {
      ClassDirIsPlaced(w, n, budget, 0, 3, "block", CLASS_BLOCK);
    } else {
      var i: nat :| i < |CLASSES| && d == ClassSlot(10, i);
      ClassDirIsPlaced(w, n, budget, 10, d, CLASSES[i].0, CLASSES[i].1);
    }
  }

  lemma {:induction false} FirstChildAt(cells: map<nat, M.Node>, kids: seq<nat>, k: nat, name: string)
    requires k < |kids| && (forall j :: 0 <= j < |kids| ==> kids[j] in cells)
    requires cells[kids[k]].name == name && forall j :: 0 <= j < k ==> cells[kids[j]].name != name
    ensures FirstChild(cells, kids, name) == Some(kids[k])
  {
    if k < |kids| - 1 { FirstChildAt(cells, kids[..|kids| - 1], k, name); }
  }

  // ---------- What a listed name is looked up to

  lemma {:induction false} MemberIsFound(base: seq<SnapNode>, classId: nat, wholeOnly: bool, name: string, m: nat,
                                         n: nat)
    requires 1 <= m < n <= |base| && IsMember(base[m], classId, wholeOnly) && base[m].bsdName == name
    ensures FirstMemberNamed(base, classId, wholeOnly, name, n).Some?
    ensures FirstMemberNamed(base, classId, wholeOnly, name, n).value <= m
    decreases n
  {
    if m < n - 1 { MemberIsFound(base, classId, wholeOnly, name, m, n - 1); }
  }

  /** An entry after "." and ".." is a member, under its device name. */
  lemma ListedIsMember(w: World, dir: FsNode, k: nat) returns (m: nat)
    requires WellFormed(w) && dir.at in w.cells && 2 <= k < |ClassItems(w, dir)|
    ensures w.snap.Some? && 1 <= m < |w.snap.value.base|
    ensures IsMember(w.snap.value.base[m], w.cells[dir.at].instance, w.cells[dir.at].flags.wholeOnly)
    ensures ClassItems(w, dir)[k].name == w.snap.value.base[m].bsdName
    ensures ClassItems(w, dir)[k].id.regid == w.snap.value.base[m].regid
  {
    var node := w.cells[dir.at];
    var pairs := MemberPairs(w.snap, node.instance, node.flags.wholeOnly);
    var row := RowOf(pairs, Symlink, NO_OBJECTID, node.baseId);
    assert ClassItems(w, dir)[k] == row[k - 2];
    var base := w.snap.value.base;
    var members := Members(base, node.instance, node.flags.wholeOnly);
    m := members[k - 2];
    RowOfAt(pairs, Symlink, NO_OBJECTID, node.baseId, k - 2);
    DeviceNamesAt(base, members, k - 2);
  }

  /** A listed name is found: its first member, presented through the marker. */
  lemma ListedIsFound(w: World, n: nat, budget: seq<nat>, d: nat, k: nat) returns (i: nat, m: nat)
    requires WellFormed(w) && Planted(w.cells, n, budget) && IsPlaced(w, n, budget, d)
    requires 2 <= k < |ItemsOf(w, StaticNode(w.cells, d))|
    ensures w.snap.Some? && 1 <= i <= m < |w.snap.value.base|
    ensures var item := ItemsOf(w, StaticNode(w.cells, d))[k];
            && w.snap.value.base[i].bsdName == item.name == w.snap.value.base[m].bsdName
            && item.id.regid == w.snap.value.base[m].regid
            && IsMember(w.snap.value.base[i], w.cells[d].instance, w.cells[d].flags.wholeOnly)
            && Resolved(w, StaticNode(w.cells, d), item.name) == Some(LinkNode(w, d, w.snap.value.base[i].regid))
  {
    var dir, node := StaticNode(w.cells, d), w.cells[d];
    m := ListedIsMember(w, dir, k);
    var base := w.snap.value.base;
    MemberIsFound(base, node.instance, node.flags.wholeOnly, base[m].bsdName, m, |base|);
    i := FirstMemberNamed(base, node.instance, node.flags.wholeOnly, base[m].bsdName, |base|).value;
    ClassResolves(w, n, budget, d, base[m].bsdName, base[i].regid);
  }

  lemma ClassResolves(w: World, n: nat, budget: seq<nat>, d: nat, name: string, regid: nat)
    requires WellFormed(w) && Planted(w.cells, n, budget) && IsPlaced(w, n, budget, d)
    requires NamedMember(w.snap, w.cells[d].instance, w.cells[d].flags.wholeOnly, name) == Some(regid)
    ensures Resolved(w, StaticNode(w.cells, d), name) == Some(LinkNode(w, d, regid))
  {
  }

  /** The node lookup gives out for a member. */
  ghost function LinkNode(w: World, d: nat, regid: nat): FsNode
    requires d + 3 in w.cells
  {
    FsNode(d + 3, NodeId(regid, NO_OBJECTID, w.cells[d + 3].baseId))
  }

  // ---------- What is in the way

  /** Names a path is made of: not empty, no slash, not "." or "..". */
  ghost predicate PlainRegistry(base: seq<SnapNode>) {
    forall k :: 0 <= k < |base| ==> SlashFree(base[k].name) &&
                                    (k > 0 ==> base[k].name != "" && !IsDotName(base[k].name))
  }

  /** A suffix makes no name special. */
  lemma DisplayIsPlain(name: string, dup: nat)
    requires name != "" && !IsDotName(name)
    ensures Display(name, dup) != "" && !IsDotName(Display(name, dup))
  {
    if dup > 0 {
      var text := name + "@" + Decimal(dup);
      assert text[|name|] == '@';
    }
  }

  lemma {:induction false} ComponentsArePlain(base: seq<SnapNode>, i: nat, n: nat)
    requires i < |base| && PlainRegistry(base)
    ensures PlainNames(Components(base, i, n))
    decreases n
  {
    if i != 0 && n > 0 {
      ParentInside(base, i);
      ComponentsArePlain(base, Parents(base)[i], n - 1);
      DisplayIsPlain(base[i].name, Ordinal(base, i));
    }
  }

  /** /sys/devices/system comes before a device of that name, and the attribute `name` before a child of that name. */
  ghost predicate Unobstructed(names: seq<string>) {
    (names != [] ==> names[0] != "system") && forall k :: 1 <= k < |names| ==> names[k] != "name"
  }

  lemma {:induction false} ClearIffUnobstructed(w: World, names: seq<string>)
    requires WellFormed(w) && OnlySystem(w.cells, DEVICES)
    ensures Clear(w, DEVICES, names) <==> Unobstructed(names)
  {
    if names != [] {
      var k := |names| - 1;
      ClearIffUnobstructed(w, names[..k]);
      var kids := w.cells[DEVICES].children;
      assert kids[..0] == [] && FirstChild(w.cells, kids, names[0]).None? <==> names[0] != "system";
      assert DEVICE_ATTRS[..0] == [] && (FirstPair(DEVICE_ATTRS, names[k]).None? <==> names[k] != "name");
      assert forall j :: 0 <= j < k ==> names[..k][j] == names[j];
    }
  }

  // ---------- The target

  /** The target of a link at this depth fits its buffer. */
  ghost predicate Short(depth: nat, names: seq<string>) {
    3 * depth + 8 + |Join(names)| < 1024
  }

  lemma {:induction false} JoinIsNotEmpty(names: seq<string>)
    requires names != [] && names[0] != ""
    ensures Join(names) != ""
  {
    if |names| > 1 { JoinIsNotEmpty(names[..|names| - 1]); }
  }

  lemma ComponentsNotEmpty(base: seq<SnapNode>, i: nat)
    requires 1 <= i < |base|
    ensures Components(base, i, PATH_DEPTH) != []
  {
  }

  /** The text that is rendered: the whole target, or nothing if it is too long. */
  lemma RenderedIff(v: Built, i: nat, depth: nat)
    requires !v.degraded && 1 <= i < |v.base| && DistinctIds(v.base) && PlainRegistry(v.base)
    ensures var names := Components(v.base, i, PATH_DEPTH);
            var target := TargetOf(Some(v), v.base[i].regid, depth, LINK_MAX);
            if Short(depth, names) then
              PathOf(v.base, i, LINK_MAX) != "" && target == TargetText(depth, PathOf(v.base, i, LINK_MAX))
            else
              target == ""
  {
    var names := Components(v.base, i, PATH_DEPTH);
    ComponentsNotEmpty(v.base, i);
    ComponentsArePlain(v.base, i, PATH_DEPTH);
    JoinIsNotEmpty(names);
    TargetOfDevice(v, i, depth, LINK_MAX);
    ClimbsLength(depth);
  }

  lemma EmptyTargetLeadsNowhere(w: World, q: Option<FsNode>, text: string)
    requires WellFormed(w) && text == ""
    ensures Walk(w, q, Split(text)).None?
  {
    assert Split(text) == [""];
    assert [""][..0] == [];
  }

  /** What a link in class directory d shows for node i, followed from there. */
  ghost function Followed(w: World, n: nat, budget: seq<nat>, d: nat, i: nat): Option<FsNode>
    requires Published(w) && Planted(w.cells, n, budget) && d + 3 < n && 1 <= i < |w.snap.value.base|
    requires Level(w.cells, n, budget, d + 3) > 0
  {
    var target := TargetOf(w.snap, w.snap.value.base[i].regid, Level(w.cells, n, budget, d + 3) - 1, LINK_MAX);
    Walk(w, Some(StaticNode(w.cells, d)), Split(target))
  }

  lemma DevicesIsFirst(w: World, n: nat, budget: seq<nat>, cpus: nat)
    requires WellFormed(w) && MountTree(w.cells, n, budget, cpus)
    ensures FirstChild(w.cells, w.cells[0].children, "devices") == Some(DEVICES)
  {
    assert TreeNode(w.cells, 0);
    FirstChildAt(w.cells, w.cells[0].children, 6, "devices");
  }

  lemma LinkLevel(cells: map<nat, M.Node>, n: nat, budget: seq<nat>, d: nat)
    requires Planted(cells, n, budget) && d + 3 < n && cells[d + 3].parent == Some(d)
    ensures Level(cells, n, budget, d + 3) == Level(cells, n, budget, d) + 1
  {
    assert Linked(cells, d + 3);
  }

  /** The whole target leads to the device just if the path is whole and nothing on the way hides a part of it. */
  lemma {:induction false} TargetIsClearIff(w: World, n: nat, budget: seq<nat>, d: nat, i: nat, target: string)
    requires Published(w) && Planted(w.cells, n, budget) && d < n && OnlyDirs(w.cells, n, budget, d)
    requires FirstChild(w.cells, w.cells[0].children, "devices") == Some(DEVICES) && w.cells[DEVICES].kind == M.Device
    requires OnlySystem(w.cells, DEVICES) && 1 <= i < |w.snap.value.base| && PlainRegistry(w.snap.value.base)
    requires PathOf(w.snap.value.base, i, LINK_MAX) != ""
    requires target == TargetText(Level(w.cells, n, budget, d), PathOf(w.snap.value.base, i, LINK_MAX))
    ensures var base := w.snap.value.base;
            Walk(w, Some(StaticNode(w.cells, d)), Split(target)) == Some(DeviceNode(w, DEVICES, base[i].regid)) <==>
            Unobstructed(Components(base, i, PATH_DEPTH)) && Reaches(base, i, PATH_DEPTH) &&
            Unshadowed(base, i, PATH_DEPTH)
  {
    ComponentsArePlain(w.snap.value.base, i, PATH_DEPTH);
    TargetLeadsToDeviceIff(w, n, budget, d, DEVICES, i, LINK_MAX);
    ClearIffUnobstructed(w, Components(w.snap.value.base, i, PATH_DEPTH));
  }

  /** The same for whatever is rendered: nothing, if the target is too long. */
  lemma {:induction false} TextLeadsToDeviceIff(w: World, n: nat, budget: seq<nat>, cpus: nat, d: nat, i: nat,
                                                target: string)
    requires Published(w) && MountTree(w.cells, n, budget, cpus) && IsPlaced(w, n, budget, d)
    requires 1 <= i < |w.snap.value.base| && PlainRegistry(w.snap.value.base)
    requires target == TargetOf(w.snap, w.snap.value.base[i].regid, Level(w.cells, n, budget, d), LINK_MAX)
    ensures var base, names := w.snap.value.base, Components(w.snap.value.base, i, PATH_DEPTH);
            Walk(w, Some(StaticNode(w.cells, d)), Split(target)) == Some(DeviceNode(w, DEVICES, base[i].regid)) <==>
            Short(Level(w.cells, n, budget, d), names) && Unobstructed(names) &&
            Reaches(base, i, PATH_DEPTH) && Unshadowed(base, i, PATH_DEPTH)
  {
    var v, depth := w.snap.value, Level(w.cells, n, budget, d);
    RenderedIff(v, i, depth);
    if Short(depth, Components(v.base, i, PATH_DEPTH)) {
      DevicesIsFirst(w, n, budget, cpus);
      TargetIsClearIff(w, n, budget, d, i, target);
    } else {
      EmptyTargetLeadsNowhere(w, Some(StaticNode(w.cells, d)), target);
    }
  }

  /** It leads to the device just if the target fits, the path is whole, and nothing on the way hides a part of it. */
  lemma {:induction false} FollowedIff(w: World, n: nat, budget: seq<nat>, cpus: nat, d: nat, i: nat)
    requires Published(w) && MountTree(w.cells, n, budget, cpus) && IsPlaced(w, n, budget, d)
    requires 1 <= i < |w.snap.value.base| && PlainRegistry(w.snap.value.base)
    ensures Level(w.cells, n, budget, d + 3) == Level(w.cells, n, budget, d) + 1
    ensures var base, names := w.snap.value.base, Components(w.snap.value.base, i, PATH_DEPTH);
            Followed(w, n, budget, d, i) == Some(DeviceNode(w, DEVICES, base[i].regid)) <==>
            Short(Level(w.cells, n, budget, d), names) && Unobstructed(names) &&
            Reaches(base, i, PATH_DEPTH) && Unshadowed(base, i, PATH_DEPTH)
  {
    var v, depth := w.snap.value, Level(w.cells, n, budget, d);
    LinkLevel(w.cells, n, budget, d);
    var target := TargetOf(w.snap, v.base[i].regid, depth, LINK_MAX);
    assert Followed(w, n, budget, d, i) == Walk(w, Some(StaticNode(w.cells, d)), Split(target));
    TextLeadsToDeviceIff(w, n, budget, cpus, d, i, target);
  }

  /**
   In the tree of a mount: every member that /sys/block or a directory of /sys/class lists can be
   looked up by the name it is listed under, and gives the first member of that name. Reading that
   link and following its target from the directory leads to its device just if the target fits its
   buffer, the device is not too deep, and nothing on the way down is hidden.
   */
  lemma MemberLeadsToDeviceIff(w: World, n: nat, budget: seq<nat>, cpus: nat, d: nat, k: nat) returns (i: nat, m: nat)
    requires Published(w) && MountTree(w.cells, n, budget, cpus) && IsDeviceClassDir(d) && d in w.cells
    requires PlainRegistry(w.snap.value.base) && 2 <= k < |ItemsOf(w, StaticNode(w.cells, d))|
    ensures d + 3 < n && 1 <= i <= m < |w.snap.value.base| && Level(w.cells, n, budget, d + 3) > 0
    ensures var base, item := w.snap.value.base, ItemsOf(w, StaticNode(w.cells, d))[k];
            && base[i].bsdName == item.name == base[m].bsdName && base[m].regid == item.id.regid
            && (item.name != "" && !IsDotName(item.name) ==>
                  Step(w, Some(StaticNode(w.cells, d)), item.name) == Some(LinkNode(w, d, base[i].regid)))
    ensures var base, names := w.snap.value.base, Components(w.snap.value.base, i, PATH_DEPTH);
            Followed(w, n, budget, d, i) == Some(DeviceNode(w, DEVICES, base[i].regid)) <==>
            Short(Level(w.cells, n, budget, d), names) && Unobstructed(names) &&
            Reaches(base, i, PATH_DEPTH) && Unshadowed(base, i, PATH_DEPTH)
  {
    DeviceClassDirIsPlaced(w, n, budget, cpus, d);
    i, m := ListedIsFound(w, n, budget, d, k);
    FollowedIff(w, n, budget, cpus, d, i);
  }
}
