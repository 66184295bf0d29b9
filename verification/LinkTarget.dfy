/**
 Where a class symlink leads (kext/sysfs_vnops.c:1134-1157): its target, cut at the slashes and
 looked up name by name from the directory of the link, is the device itself.
 */
module LinkTarget {
  import opened Wrappers
  import opened DevicePath
  import opened Directories
  import opened Dirents
  import opened Lookup
  import opened Planting
  import opened Readdir
  import opened Registry
  import opened Snapshot
  import opened SnapshotPath
  import M = StructureMemory

  /** SYSFS_LINK_TARGET_MAX. */
  const LINK_MAX: nat := 1024

  // ---------- Pathname resolution

  /** One component: lookup in a directory, and nothing anywhere else. */
  ghost function Step(w: World, q: Option<FsNode>, name: string): (r: Option<FsNode>)
    requires WellFormed(w)
    ensures r.Some? ==> r.value.at in w.cells
  {
    if q.None? || q.value.at !in w.cells || !IsDirectory(w.cells, q.value) || name == "" then None
    else
      assert TreeNode(w.cells, q.value.at);
      if name == ".." then Some(Parent(w, q.value))
      else if name == "." then q
      else Resolved(w, q.value, name)
  }

  ghost function Walk(w: World, q: Option<FsNode>, names: seq<string>): Option<FsNode>
    requires WellFormed(w)
  {
    if names == [] then q else Step(w, Walk(w, q, names[..|names| - 1]), names[|names| - 1])
  }

  lemma {:induction false} WalkConcat(w: World, q: Option<FsNode>, a: seq<string>, b: seq<string>)
    requires WellFormed(w)
    ensures Walk(w, q, a + b) == Walk(w, Walk(w, q, a), b)
    decreases |b|
  {
    if b == [] {
      assert a + b == a;
    } else {
      assert (a + b)[..|a + b| - 1] == a + b[..|b| - 1];
      WalkConcat(w, q, a, b[..|b| - 1]);
    }
  }

  // ---------- Up to the root

  /** How far below the root a node is. */
  ghost function Level(cells: map<nat, M.Node>, n: nat, budget: seq<nat>, a: nat): nat
    requires Planted(cells, n, budget) && a < n
    decreases a
  {
    if a == 0 then 0
    else
      assert Linked(cells, a);
      1 + Level(cells, n, budget, cells[a].parent.value)
  }

  /** The node and all above it are directories of the static tree. */
  ghost predicate OnlyDirs(cells: map<nat, M.Node>, n: nat, budget: seq<nat>, a: nat)
    requires Planted(cells, n, budget) && a < n
    decreases a
  {
    (cells[a].kind == M.Root || cells[a].kind == M.Dir || cells[a].kind == M.Device) &&
    (a > 0 ==> assert Linked(cells, a); OnlyDirs(cells, n, budget, cells[a].parent.value))
  }

  /** The node lookup gives out for a static directory. */
  ghost function StaticNode(cells: map<nat, M.Node>, a: nat): FsNode
    requires a in cells
  {
    FsNode(a, NodeId(NO_REGID, NO_OBJECTID, cells[a].baseId))
  }

  ghost function Ups(k: nat): seq<string> {
    if k == 0 then [] else Ups(k - 1) + [".."]
  }

  lemma {:induction false} UpsCommute(k: nat)
    ensures Ups(k) + [".."] == [".."] + Ups(k)
  {
    if k > 0 { UpsCommute(k - 1); }
  }

  lemma UpOne(w: World, a: nat)
    requires WellFormed(w) && a in w.cells && w.cells[a].parent.Some?
    requires w.cells[a].kind == M.Root || w.cells[a].kind == M.Dir || w.cells[a].kind == M.Device
    ensures w.cells[a].parent.value in w.cells
    ensures Step(w, Some(StaticNode(w.cells, a)), "..") == Some(StaticNode(w.cells, w.cells[a].parent.value))
  {
    assert TreeNode(w.cells, a);
  }

  lemma WalkOnUp(w: World, q: Option<FsNode>, up: Option<FsNode>, k: nat)
    requires WellFormed(w) && Step(w, q, "..") == up
    ensures Walk(w, q, Ups(k + 1)) == Walk(w, up, Ups(k))
  {
    UpsCommute(k);
    WalkConcat(w, q, [".."], Ups(k));
    assert [".."][..0] == [];
  }

  /** As many ".." as the node is deep lead to the root. */
  lemma {:induction false} UpToRoot(w: World, n: nat, budget: seq<nat>, a: nat)
    requires WellFormed(w) && Planted(w.cells, n, budget) && a < n && OnlyDirs(w.cells, n, budget, a)
    ensures 0 in w.cells
    ensures Walk(w, Some(StaticNode(w.cells, a)), Ups(Level(w.cells, n, budget, a))) == Some(StaticNode(w.cells, 0))
    decreases a
  {
    if a > 0 {
      assert Linked(w.cells, a);
      var up := w.cells[a].parent.value;
      UpOne(w, a);
      UpToRoot(w, n, budget, up);
      WalkOnUp(w, Some(StaticNode(w.cells, a)), Some(StaticNode(w.cells, up)), Level(w.cells, n, budget, up));
    }
  }

  // ---------- Down the registry

  /** The node lookup gives out for the device that is node i of the snapshot. */
  ghost function DeviceNode(w: World, dev: nat, regid: nat): FsNode
    requires dev in w.cells
  {
    FsNode(dev, NodeId(regid, DIR_OBJID, w.cells[dev].baseId))
  }

  /** Names that pathname resolution does not treat specially. */
  ghost predicate PlainNames(names: seq<string>) {
    forall k :: 0 <= k < |names| ==> names[k] != "" && !IsDotName(names[k])
  }

  /** No static entry of /sys/devices and no attribute file takes precedence over a device on the way. */
  ghost predicate Clear(w: World, dev: nat, names: seq<string>)
    requires WellFormed(w) && dev in w.cells
  {
    names == [] ||
    (var k := |names| - 1;
     Clear(w, dev, names[..k]) &&
     (k == 0 ==> FirstChild(w.cells, w.cells[dev].children, names[0]).None?) &&
     (k > 0 ==> FirstPair(DEVICE_ATTRS, names[k]).None?))
  }

  /** The snapshot names are resolved against: complete, with distinct ids. */
  ghost predicate Published(w: World) {
    WellFormed(w) && w.snap.Some? && !w.snap.value.degraded && DistinctIds(w.snap.value.base)
  }

  /** One step down from a device. */
  lemma StepDown(w: World, dev: nat, p: nat, name: string)
    requires Published(w) && dev in w.cells && w.cells[dev].kind == M.Device && p < |w.snap.value.base| && name != ""
    requires !IsDotName(name)
    requires if p == 0 then FirstChild(w.cells, w.cells[dev].children, name).None?
             else FirstPair(DEVICE_ATTRS, name).None?
    ensures var base := w.snap.value.base; var child := ChildNamed(base, p, name);
            Step(w, Some(DeviceNode(w, dev, base[p].regid)), name) ==
            if child.None? then None else Some(DeviceNode(w, dev, base[child.value].regid))
  {
    var base := w.snap.value.base;
    IndexMapInverts(base, p);
    IndexMapInverts(base, 0);
    assert TreeNode(w.cells, dev);
  }

  lemma {:induction false} WalkDown(w: World, dev: nat, names: seq<string>)
    requires Published(w) && dev in w.cells && w.cells[dev].kind == M.Device && PlainNames(names)
    requires Clear(w, dev, names)
    ensures var base := w.snap.value.base; var i := Resolve(base, 0, names);
            && (i.Some? ==> i.value < |base| && (i.value == 0 <==> names == []))
            && Walk(w, Some(DeviceNode(w, dev, NO_REGID)), names) ==
               if i.None? then None else Some(DeviceNode(w, dev, base[i.value].regid))
  {
    if names != [] {
      var k := |names| - 1;
      WalkDown(w, dev, names[..k]);
      var before := Resolve(w.snap.value.base, 0, names[..k]);
      if before.Some? { StepDown(w, dev, before.value, names[k]); }
    }
  }

  /** Off the registry: nowhere, in the static tree below /sys/devices, or at an attribute file. */
  ghost predicate Lost(dev: nat, q: Option<FsNode>) {
    q.None? || q.value.at > dev || (q.value.at == dev && q.value.id.objectid != DIR_OBJID)
  }

  /** There is no way back without "..". */
  lemma LostStays(w: World, n: nat, budget: seq<nat>, dev: nat, q: Option<FsNode>, name: string)
    requires WellFormed(w) && Planted(w.cells, n, budget) && dev in w.cells && w.cells[dev].kind == M.Device
    requires Lost(dev, q) && !IsDotName(name)
    ensures Lost(dev, Step(w, q, name))
  {
    if q.Some? && q.value.at in w.cells {
      assert TreeNode(w.cells, q.value.at);
      assert Branch(w.cells, n, budget, q.value.at);
    }
  }

  lemma Strays(w: World, n: nat, budget: seq<nat>, dev: nat, p: nat, name: string)
    requires Published(w) && Planted(w.cells, n, budget) && dev in w.cells && w.cells[dev].kind == M.Device
    requires p < |w.snap.value.base| && !IsDotName(name)
    requires if p == 0 then FirstChild(w.cells, w.cells[dev].children, name).Some?
             else FirstPair(DEVICE_ATTRS, name).Some?
    ensures Lost(dev, Step(w, Some(DeviceNode(w, dev, w.snap.value.base[p].regid)), name))
  {
    IndexMapInverts(w.snap.value.base, p);
    IndexMapInverts(w.snap.value.base, 0);
    AttributesHaveIds(name);
    assert TreeNode(w.cells, dev);
    assert Branch(w.cells, n, budget, dev);
  }

  lemma {:induction false} WalkStrays(w: World, n: nat, budget: seq<nat>, dev: nat, names: seq<string>)
    requires Published(w) && Planted(w.cells, n, budget) && dev in w.cells && w.cells[dev].kind == M.Device
    requires PlainNames(names) && !Clear(w, dev, names)
    ensures Lost(dev, Walk(w, Some(DeviceNode(w, dev, NO_REGID)), names))
  {
    var k := |names| - 1;
    var q := Walk(w, Some(DeviceNode(w, dev, NO_REGID)), names[..k]);
    if !Clear(w, dev, names[..k]) {
      WalkStrays(w, n, budget, dev, names[..k]);
      LostStays(w, n, budget, dev, q, names[k]);
    } else {
      WalkDown(w, dev, names[..k]);
      var before := Resolve(w.snap.value.base, 0, names[..k]);
      if before.Some? { Strays(w, n, budget, dev, before.value, names[k]); }
    }
  }

  /** Down from /sys/devices, the components of a device's path lead to it just if nothing is in the way. */
  lemma ComponentsLeadToDeviceIff(w: World, n: nat, budget: seq<nat>, dev: nat, i: nat, names: seq<string>)
    requires Published(w) && Planted(w.cells, n, budget) && dev in w.cells && w.cells[dev].kind == M.Device
    requires 1 <= i < |w.snap.value.base| && names == Components(w.snap.value.base, i, PATH_DEPTH) && PlainNames(names)
    ensures var base := w.snap.value.base;
            Walk(w, Some(DeviceNode(w, dev, NO_REGID)), names) == Some(DeviceNode(w, dev, base[i].regid)) <==>
            Clear(w, dev, names) && Reaches(base, i, PATH_DEPTH) && Unshadowed(base, i, PATH_DEPTH)
  {
    var base := w.snap.value.base;
    ComponentsResolveBack(base, i, PATH_DEPTH);
    if Clear(w, dev, names) {
      WalkDown(w, dev, names);
      var found := Resolve(base, 0, names);
      if found.Some? && base[found.value].regid == base[i].regid {
        IndexMapInverts(base, i);
        IndexMapInverts(base, found.value);
      }
    } else {
      WalkStrays(w, n, budget, dev, names);
    }
  }

  // ---------- The target

  /** The text a link at depth `depth` is given: climb out, enter devices/, follow the path. */
  function TargetText(depth: nat, path: string): string {
    Climbs(depth) + "devices/" + path
  }

  function Climbs(depth: nat): string {
    if depth == 0 then "" else Climbs(depth - 1) + "../"
  }

  lemma JoinOne(a: seq<string>, name: string)
    requires a != []
    ensures Join(a + [name]) == Join(a) + "/" + name
  {
    assert (a + [name])[..|a|] == a;
  }

  lemma {:induction false} JoinConcat(a: seq<string>, b: seq<string>, text: string)
    requires a != [] && b != [] && text == Join(b)
    ensures Join(a + b) == Join(a) + "/" + text
    decreases |b|
  {
    var last := |b| - 1;
    if last == 0 {
      assert a + b == a + [b[0]];
      JoinOne(a, b[0]);
    } else {
      JoinConcat(a, b[..last], Join(b[..last]));
      JoinOne(a + b[..last], b[last]);
      assert a + b == a + b[..last] + [b[last]];
      assert Join(a) + "/" + Join(b[..last]) + "/" + b[last] == Join(a) + "/" + (Join(b[..last]) + "/" + b[last]);
    }
  }

  lemma {:induction false} JoinUps(depth: nat, up: string, word: string)
    requires up == ".."
    ensures Join(Ups(depth) + [word]) == Climbs(depth) + word
  {
    if depth > 0 {
      JoinUps(depth - 1, up, up);
      JoinOne(Ups(depth), word);
      assert Climbs(depth - 1) + up + "/" + word == Climbs(depth) + word by { assert up + "/" == "../"; }
    }
  }

  /** The target is the ".."s, "devices" and the names of the path, joined. */
  lemma TargetIsJoined(depth: nat, word: string, names: seq<string>)
    requires word == "devices" && names != []
    ensures TargetText(depth, Join(names)) == Join(Ups(depth) + [word] + names)
  {
    JoinUps(depth, "..", word);
    JoinConcat(Ups(depth) + [word], names, Join(names));
    assert word + "/" == "devices/";
  }

  lemma {:induction false} UpsAreSlashFree(depth: nat, k: nat)
    requires k < |Ups(depth)|
    ensures SlashFree(Ups(depth)[k])
  {
    if k < |Ups(depth)| - 1 { UpsAreSlashFree(depth - 1, k); }
  }

  /** Cutting a target gives them back. */
  lemma SplitTarget(depth: nat, word: string, names: seq<string>)
    requires word == "devices" && names != [] && forall k :: 0 <= k < |names| ==> SlashFree(names[k])
    ensures Split(TargetText(depth, Join(names))) == Ups(depth) + [word] + names
  {
    var all := Ups(depth) + [word] + names;
    forall k | 0 <= k < |all| ensures SlashFree(all[k]) {
      if k < |Ups(depth)| { UpsAreSlashFree(depth, k); }
    }
    TargetIsJoined(depth, word, names);
    SplitJoin(all);
  }

  /** From the root, "devices" is /sys/devices. */
  lemma EnterDevices(w: World, dev: nat)
    requires WellFormed(w) && 0 in w.cells && w.cells[0].kind == M.Root
    requires FirstChild(w.cells, w.cells[0].children, "devices") == Some(dev)
    ensures dev in w.cells && Walk(w, Some(StaticNode(w.cells, 0)), ["devices"]) == Some(DeviceNode(w, dev, NO_REGID))
  {
    assert ["devices"][..0] == [];
  }

  /**
   A rendered target, resolved from the directory of its link, is the device the link stands
   for: exactly when the device is not too deep, and nothing on the way down hides it.
   */
  lemma TargetLeadsToDeviceIff(w: World, n: nat, budget: seq<nat>, d: nat, dev: nat, i: nat, buflen: nat)
    requires Published(w) && Planted(w.cells, n, budget) && d < n && OnlyDirs(w.cells, n, budget, d)
    requires FirstChild(w.cells, w.cells[0].children, "devices") == Some(dev) && w.cells[dev].kind == M.Device
    requires var base := w.snap.value.base;
             1 <= i < |base| && (forall k :: 0 <= k < |base| ==> SlashFree(base[k].name)) &&
             PlainNames(Components(base, i, PATH_DEPTH)) &&
             PathOf(base, i, buflen) != ""
    ensures var base := w.snap.value.base;
            var target := TargetText(Level(w.cells, n, budget, d), PathOf(base, i, buflen));
            Walk(w, Some(StaticNode(w.cells, d)), Split(target)) == Some(DeviceNode(w, dev, base[i].regid)) <==>
            Clear(w, dev, Components(base, i, PATH_DEPTH)) && Reaches(base, i, PATH_DEPTH) &&
            Unshadowed(base, i, PATH_DEPTH)
  {
    var base := w.snap.value.base;
    var names, depth := Components(base, i, PATH_DEPTH), Level(w.cells, n, budget, d);
    ComponentsSlashFree(base, i, PATH_DEPTH);
    SplitTarget(depth, "devices", names);
    assert Linked(w.cells, 0);
    UpToRoot(w, n, budget, d);
    EnterDevices(w, dev);
    WalkParts(w, Some(StaticNode(w.cells, d)), Ups(depth), ["devices"], names);
    ComponentsLeadToDeviceIff(w, n, budget, dev, i, names);
  }

  lemma WalkParts(w: World, q: Option<FsNode>, a: seq<string>, b: seq<string>, c: seq<string>)
    requires WellFormed(w)
    ensures Walk(w, q, a + b + c) == Walk(w, Walk(w, Walk(w, q, a), b), c)
  {
    WalkConcat(w, q, a + b, c);
    WalkConcat(w, q, a, b);
  }

  // ---------- The code

  /** What sysfs_iokit_path() writes into the target's buffer. */
  ghost function PathText(snap: Option<Built>, regid: nat): string {
    if snap.None? || regid == 0 || regid !in IndexMap(snap.value.base) then ""
    else PathAt(snap.value, IndexMap(snap.value.base)[regid], LINK_MAX)
  }

  /** The target, or nothing if there is no path or it does not fit. */
  ghost function TargetOf(snap: Option<Built>, regid: nat, depth: nat, buflen: nat): string {
    var path := PathText(snap, regid);
    var text := TargetText(depth, path);
    if path == "" || |text| >= buflen then "" else text
  }

  /** Lines 1142-1146: count the directories above the link, the root not included. */
  method CountDepth(cells: map<nat, M.Node>, at: nat, ghost n: nat, ghost budget: seq<nat>) returns (depth: nat)
    requires Planted(cells, n, budget) && 0 < at < n
    ensures depth == Level(cells, n, budget, at) - 1
  {
    assert Linked(cells, at);
    var p: Option<nat> := cells[at].parent;
    depth := 0;
    while p.Some? && cells[p.value].kind != M.Root
      invariant p.Some? && p.value < n && depth + Level(cells, n, budget, p.value) == Level(cells, n, budget, at) - 1
      decreases p.value
    {
      assert Linked(cells, p.value);
      p := cells[p.value].parent;
      depth := depth + 1;
    }
    assert Linked(cells, p.value);
  }

  method PathFor(snap: Snapshot?, regid: nat, ghost sv: Option<Built>) returns (path: string)
    requires Tied(snap, sv)
    ensures path == PathText(sv, regid)
  {
    path := "";
    if snap != null {
      var written;
      written, path := Path(snap, regid, LINK_MAX);
    }
  }

  /** Lines 1148-1151: the climb stops once it has filled the buffer. */
  method ClimbOut(depth: nat, buflen: nat) returns (text: string)
    ensures text == Climbs(if 3 * depth <= buflen then depth else (buflen + 2) / 3)
  {
    text := "";
    var i := 0;
    while i < depth && |text| < buflen
      invariant i <= depth && text == Climbs(i) && |text| == 3 * i && 3 * i < buflen + 3
    {
      text := text + "../";
      i := i + 1;
    }
  }

  lemma {:induction false} ClimbsLength(k: nat)
    ensures |Climbs(k)| == 3 * k
  {
    if k > 0 { ClimbsLength(k - 1); }
  }

  /** If the climb stops early, neither it nor the whole target fits. */
  lemma {:induction false} CutShortIsTooLong(depth: nat, buflen: nat, text: string, path: string)
    requires text == Climbs(if 3 * depth <= buflen then depth else (buflen + 2) / 3)
    ensures |TargetText(depth, path)| >= buflen <==> |text + "devices/" + path| >= buflen
    ensures |text + "devices/" + path| < buflen ==> text + "devices/" + path == TargetText(depth, path)
  {
    ClimbsLength(depth);
    ClimbsLength((buflen + 2) / 3);
  }

  /** For a device of a complete snapshot, what is rendered is the target of its path, or nothing. */
  lemma TargetOfDevice(v: Built, i: nat, depth: nat, buflen: nat)
    requires !v.degraded && 1 <= i < |v.base| && DistinctIds(v.base)
    ensures var path := PathOf(v.base, i, LINK_MAX); var text := TargetText(depth, path);
            TargetOf(Some(v), v.base[i].regid, depth, buflen) == if path == "" || |text| >= buflen then "" else text
  {
    IndexMapInverts(v.base, i);
    IndexMapInverts(v.base, 0);
    PathAtIsPathOf(v, i, LINK_MAX);
  }

  /** sysfs_link_target(). */
  method Render(cells: map<nat, M.Node>, link: FsNode, snap: Snapshot?, buflen: nat,
                ghost sv: Option<Built>, ghost n: nat, ghost budget: seq<nat>)
    returns (target: string)
    requires Planted(cells, n, budget) && 0 < link.at < n && Tied(snap, sv)
    ensures target == TargetOf(sv, link.id.regid, Level(cells, n, budget, link.at) - 1, buflen)
  {
    var path := PathFor(snap, link.id.regid, sv);
    if |path| == 0 {
      return "";
    }
    var depth := CountDepth(cells, link.at, n, budget);
    target := ClimbOut(depth, buflen);
    CutShortIsTooLong(depth, buflen, target, path);
    target := target + "devices/" + path;
    if |target| >= buflen {
      return "";
    }
  }
}
