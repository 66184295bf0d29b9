/**
 The four readdir functions (kext/sysfs_vnops.c:695-1038, :1337-1431) as code: each walks its
 directory from the start, counts every entry's size, and copies out what is at or after the
 caller's offset. Each is proved to answer as `Dirents.Answers` says, for its own listing.
 */
module Readdir {
  import opened Wrappers
  import opened Directories
  import opened Dirents
  import opened Registry
  import opened Snapshot
  import opened StructureBuild
  import M = StructureMemory

  /** More entries behind those already walked change nothing about them. */
  lemma {:induction false} WalkedStays(done: seq<Item>, items: seq<Item>, start: nat, k: nat)
    requires done <= items && k <= |done|
    ensures Pos(items, k) == Pos(done, k) && Emitted(items, start, k) == Emitted(done, start, k)
    ensures Used(items, start, k) == Used(done, start, k)
  {
    if k > 0 {
      WalkedStays(done, items, start, k - 1);
      assert items[k - 1] == done[k - 1];
    }
  }

  lemma WalkedOne(done: seq<Item>, item: Item, start: nat)
    ensures var all, n, before := done + [item], |done| + 1, Pos(done, |done|);
            && Pos(all, n) == before + DirentSize(item.name)
            && Emitted(all, start, n) == Emitted(done, start, |done|) +
                 (if before < start then []
                  else [Dirent(item.id, before + DirentSize(item.name), DirentSize(item.name), item.dtype, item.name)])
            && Used(all, start, n) == Used(done, start, |done|) + (if before >= start then DirentSize(item.name) else 0)
  {
    WalkedStays(done, done + [item], start, |done|);
  }

  /** A uio, and the variables every readdir function keeps. */
  class DirReader {
    ghost const size: nat
    const startpos: nat
    var resid: nat
    var offset: nat
    var out: seq<Dirent>
    var nextpos: nat
    var numentries: nat

    constructor (resid: nat, offset: nat)
      ensures startpos == offset && size == resid && Walked([])
    {
      this.size, this.startpos := resid, offset;
      this.resid, this.offset, this.out := resid, offset, [];
      nextpos, numentries := 0, 0;
    }

    /** Exactly the entries in `done` have been walked. */
    ghost predicate Walked(done: seq<Item>)
      reads this
    {
      nextpos == Pos(done, |done|) && out == Emitted(done, startpos, |done|) &&
      size == resid + Used(done, startpos, |done|) && numentries == |out|
    }

    /** The entry is wanted and does not fit. */
    ghost predicate Blocked(item: Item)
      reads this
    {
      nextpos >= startpos && DirentSize(item.name) > resid
    }

    /** sysfs_copyout_dirent(): size 0 says that the record does not fit. */
    method Copyout(item: Item, size: nat, seekoff: nat) returns (copied: nat)
      requires size > 0
      modifies this`resid, this`out
      ensures copied == if size <= old(resid) then size else 0
      ensures resid == old(resid) - copied
      ensures out == if copied == 0 then old(out)
                     else old(out) + [Dirent(item.id, seekoff, size, item.dtype, item.name)]
    {
      if size <= resid {
        out := out + [Dirent(item.id, seekoff, size, item.dtype, item.name)];
        resid := resid - size;
        copied := size;
      } else {
        copied := 0;
      }
    }

    /** The body of every loop: walk one entry, or stop at one that is wanted and does not fit. */
    method Emit(item: Item, ghost done: seq<Item>) returns (stop: bool)
      requires Walked(done)
      modifies this`resid, this`out, this`nextpos, this`numentries
      ensures !stop ==> Walked(done + [item])
      ensures stop ==> Walked(done) && Blocked(item)
    {
      WalkedOne(done, item, startpos);
      var size := DirentSize(item.name);
      if nextpos >= startpos {
        var copied := Copyout(item, size, nextpos + size);
        if copied == 0 {
          return true;
        }
        numentries := numentries + 1;
      }
      nextpos := nextpos + size;
      stop := false;
    }

    /** A loop over a fixed row of entries, while there is room. */
    method EmitRow(row: seq<Item>, ghost done: seq<Item>) returns (k: nat, stop: bool)
      requires Walked(done)
      modifies this`resid, this`out, this`nextpos, this`numentries
      ensures k <= |row| && Walked(done + row[..k])
      ensures stop ==> k < |row| && Blocked(row[k])
      ensures !stop && k < |row| ==> resid == 0
      ensures old(resid) == 0 ==> !stop && k == 0 && resid == 0
    {
      k := 0;
      assert done + row[..0] == done;
      while k < |row| && resid > 0
        invariant k <= |row| && Walked(done + row[..k])
        invariant old(resid) == 0 ==> k == 0 && resid == 0
      {
        stop := Emit(row[k], done + row[..k]);
        if stop {
          return;
        }
        assert done + row[..k] + [row[k]] == done + row[..k + 1];
        k := k + 1;
      }
      stop := false;
    }

    /** "." and "..", whether or not there is room. */
    method EmitDots(id: NodeId) returns (ghost k: nat, stop: bool)
      requires Walked([])
      modifies this`resid, this`out, this`nextpos, this`numentries
      ensures k <= 2 && Walked(Dots(id)[..k]) && (if stop then k < 2 && Blocked(Dots(id)[k]) else k == 2)
    {
      var dots := Dots(id);
      k := 0;
      for d := 0 to 2
        invariant k == d && Walked(dots[..d])
      {
        stop := Emit(dots[d], dots[..d]);
        if stop {
          return;
        }
        assert dots[..d] + [dots[d]] == dots[..d + 1];
        k := d + 1;
      }
      stop := false;
    }

    /** How a call ends: the walked entries are a prefix of the listing, and there was a reason to stop. */
    ghost predicate Stopped(items: seq<Item>, done: seq<Item>)
      reads this
    {
      Walked(done) && done <= items && (|done| < |items| ==> resid == 0 || Blocked(items[|done|]))
    }

    ghost function Answer(k: nat, eof: bool, error: nat): Call
      reads this
    {
      Call(startpos, size, k, out, offset, resid, eof, error)
    }

    /** The common ending: the offset, the end-of-file flag, and EINVAL for a call that could not do anything. */
    method Conclude(exhausted: bool, ghost items: seq<Item>, ghost done: seq<Item>) returns (eof: bool, error: nat)
      requires Stopped(items, done) && (exhausted ==> done == items) && (done == items && resid > 0 ==> exhausted)
      modifies this`offset
      ensures Answers(items, Answer(|done|, eof, error))
    {
      WalkedStays(done, items, startpos, |done|);
      offset := nextpos;
      eof := exhausted;
      error := if numentries == 0 && !eof then EINVAL else 0;
    }

    /** The last part of sysfs_vnop_readdir(): a directory of the static tree. */
    method ReadStatic(cells: map<nat, M.Node>, dir: FsNode) returns (ghost k: nat, eof: bool, error: nat)
      requires Walked([]) && InTree(cells, dir)
      modifies this
      ensures Answers(StaticItems(cells, dir, cells[dir.at].children), Answer(k, eof, error))
    {
      var kids := cells[dir.at].children;
      ghost var items, done := StaticItems(cells, dir, kids), [];
      var i := 0;
      while i < |kids| && resid > 0
        invariant i <= |kids| && done == StaticItems(cells, dir, kids[..i]) && Walked(done)
      {
        var child := cells[kids[i]];
        StaticStep(cells, dir, kids, i);
        if child.kind != M.Root {
          var stop := Emit(StaticItem(cells, dir, child), done);
          if stop {
            break;
          }
        }
        i := i + 1;
        done := StaticItems(cells, dir, kids[..i]);
      }
      StaticPrefix(cells, dir, kids, i);
      if i == |kids| { assert kids[..i] == kids; }
      k := |done|;
      eof, error := Conclude(i == |kids|, items, done);
    }

    /** One turn of the loop over registry children. */
    method EmitChild(snap: Snapshot?, regid: nat, i: nat, baseId: nat, ghost sv: Option<Built>, ghost row: seq<Item>,
                     ghost done: seq<Item>)
      returns (exhausted: bool, stop: bool)
      requires Tied(snap, sv) && row == RowOf(ChildPairs(sv, regid), Directory, DIR_OBJID, baseId) && i <= |row|
      requires Walked(done)
      modifies this`resid, this`out, this`nextpos, this`numentries
      ensures exhausted <==> i == |row|
      ensures exhausted ==> !stop && Walked(done)
      ensures stop ==> i < |row| && Blocked(row[i]) && Walked(done)
      ensures !exhausted && !stop ==> i < |row| && Walked(done + [row[i]])
    {
      exhausted, stop := false, false;
      var child := ChildAt(snap, regid, i, baseId, sv);
      if child.None? {
        exhausted := true;
        return;
      }
      stop := Emit(child.value, done);
    }

    /** Lines 884-903: one subdirectory per registry child, until there is none or no room. */
    method EmitChildren(snap: Snapshot?, regid: nat, baseId: nat, ghost sv: Option<Built>, ghost row: seq<Item>,
                        ghost done: seq<Item>)
      returns (ghost n: nat, exhausted: bool, stop: bool)
      requires Walked(done) && Tied(snap, sv) && row == RowOf(ChildPairs(sv, regid), Directory, DIR_OBJID, baseId)
      modifies this`resid, this`out, this`nextpos, this`numentries
      ensures n <= |row| && Walked(done + row[..n])
      ensures exhausted ==> n == |row|
      ensures stop ==> !exhausted && n < |row| && Blocked(row[n])
      ensures !exhausted && !stop ==> resid == 0
      ensures old(resid) == 0 ==> !exhausted && !stop && n == 0
    {
      n, exhausted, stop := 0, false, false;
      var i := 0;
      assert done + row[..0] == done;
      while resid > 0
        invariant n == i <= |row| && Walked(done + row[..i]) && !exhausted && !stop
        invariant old(resid) == 0 ==> resid == 0 && n == 0
        decreases |row| - i
      {
        exhausted, stop := EmitChild(snap, regid, i, baseId, sv, row, done + row[..i]);
        if exhausted || stop {
          return;
        }
        OneMore(done, row, i);
        i := i + 1;
        n := i;
      }
    }

    /** sysfs_devices_readdir(). */
    method ReadDevices(cells: map<nat, M.Node>, dir: FsNode, snap: Snapshot?, ghost w: World)
      returns (ghost k: nat, eof: bool, error: nat)
      requires Walked([]) && WellFormed(w) && w.cells == cells && dir.at in cells && Tied(snap, w.snap)
      modifies this
      ensures Answers(DeviceItems(w, dir), Answer(k, eof, error))
    {
      var baseId, id := cells[dir.at].baseId, SelfId(cells, dir);
      ghost var dots, row := Dots(id), DeviceRow(cells, dir);
      ghost var kids := RowOf(ChildPairs(w.snap, dir.id.regid), Directory, DIR_OBJID, baseId);
      ghost var d;
      var stop;
      d, stop := EmitDots(id);
      if stop {
        k := d;
        CutInFirst(dots, row, kids, d);
        eof, error := Conclude(false, dots + row + kids, dots[..d]);
        return;
      }
      assert dots[..2] == dots;
      var m;
      m, stop := EmitRow(DeviceRow(cells, dir), dots);
      if stop {
        k := |dots + row[..m]|;
        CutInSecond(dots, row, kids, m);
        eof, error := Conclude(false, dots + row + kids, dots + row[..m]);
        return;
      }
      ghost var n;
      var exhausted;
      n, exhausted, stop := EmitChildren(snap, dir.id.regid, baseId, w.snap, kids, dots + row[..m]);
      CutInThird(dots, row, kids, m, kids[..n]);
      k := |dots + row[..m] + kids[..n]|;
      eof, error := Conclude(exhausted, dots + row + kids, dots + row[..m] + kids[..n]);
    }

    method EmitMember(snap: Snapshot?, classId: nat, wholeOnly: bool, i: nat, baseId: nat, ghost sv: Option<Built>,
                      ghost row: seq<Item>, ghost done: seq<Item>)
      returns (exhausted: bool, stop: bool)
      requires Tied(snap, sv) && row == RowOf(MemberPairs(sv, classId, wholeOnly), Symlink, NO_OBJECTID, baseId)
      requires i <= |row| && Walked(done)
      modifies this`resid, this`out, this`nextpos, this`numentries
      ensures exhausted <==> i == |row|
      ensures exhausted ==> !stop && Walked(done)
      ensures stop ==> i < |row| && Blocked(row[i]) && Walked(done)
      ensures !exhausted && !stop ==> i < |row| && Walked(done + [row[i]])
    {
      exhausted, stop := false, false;
      var member := MemberAt(snap, classId, wholeOnly, i, baseId, sv);
      if member.None? {
        exhausted := true;
        return;
      }
      stop := Emit(member.value, done);
    }

    /** Lines 960-979: one symlink per member of the class. */
    method EmitMembers(snap: Snapshot?, classId: nat, wholeOnly: bool, baseId: nat, ghost sv: Option<Built>,
                       ghost row: seq<Item>, ghost done: seq<Item>)
      returns (ghost n: nat, exhausted: bool, stop: bool)
      requires Walked(done) && Tied(snap, sv)
      requires row == RowOf(MemberPairs(sv, classId, wholeOnly), Symlink, NO_OBJECTID, baseId)
      modifies this`resid, this`out, this`nextpos, this`numentries
      ensures n <= |row| && Walked(done + row[..n])
      ensures exhausted ==> n == |row|
      ensures stop ==> !exhausted && n < |row| && Blocked(row[n])
      ensures !exhausted && !stop ==> resid == 0
    {
      n, exhausted, stop := 0, false, false;
      var i := 0;
      assert done + row[..0] == done;
      while resid > 0
        invariant n == i <= |row| && Walked(done + row[..i]) && !exhausted && !stop
        decreases |row| - i
      {
        exhausted, stop := EmitMember(snap, classId, wholeOnly, i, baseId, sv, row, done + row[..i]);
        if exhausted || stop {
          return;
        }
        OneMore(done, row, i);
        i := i + 1;
        n := i;
      }
    }

    /** sysfs_class_readdir(). */
    method ReadClass(cells: map<nat, M.Node>, dir: FsNode, snap: Snapshot?, ghost w: World)
      returns (ghost k: nat, eof: bool, error: nat)
      requires Walked([]) && WellFormed(w) && w.cells == cells && dir.at in cells && Tied(snap, w.snap)
      modifies this
      ensures Answers(ClassItems(w, dir), Answer(k, eof, error))
    {
      var node, id := cells[dir.at], SelfId(cells, dir);
      ghost var dots := Dots(id);
      ghost var members := RowOf(MemberPairs(w.snap, node.instance, node.flags.wholeOnly), Symlink, NO_OBJECTID,
                                 node.baseId);
      ghost var d;
      var stop;
      d, stop := EmitDots(id);
      if stop {
        k := d;
        CutInHead(dots, members, d);
        eof, error := Conclude(false, dots + members, dots[..d]);
        return;
      }
      assert dots[..2] == dots;
      ghost var n;
      var exhausted;
      n, exhausted, stop := EmitMembers(snap, node.instance, node.flags.wholeOnly, node.baseId, w.snap, members, dots);
      CutInTail(dots, members, n);
      k := |dots + members[..n]|;
      eof, error := Conclude(exhausted, dots + members, dots + members[..n]);
    }

    /** sysfs_module_readdir(): the container lists the modules, a module its attributes. */
    method ReadModules(cells: map<nat, M.Node>, dir: FsNode, modules: seq<(string, nat)>, ghost w: World)
      returns (ghost k: nat, eof: bool, error: nat)
      requires Walked([]) && WellFormed(w) && w.cells == cells && w.modules == modules && dir.at in cells
      modifies this
      ensures Answers(ModuleDirItems(w, dir), Answer(k, eof, error))
    {
      var node, id := cells[dir.at], SelfId(cells, dir);
      var dots, container := Dots(id), IsModuleContainer(node);
      var marker := FirstOfKind(cells, node.children, M.Module);
      var row :=
        if !container then Attributes(MODULE_ATTRS, dir.id.regid, node.baseId)
        else if marker.None? then []
        else RowOf(modules, Directory, DIR_OBJID, cells[marker.value].baseId);
      assert ModuleDirItems(w, dir) == dots + row;
      ghost var d;
      var stop;
      d, stop := EmitDots(id);
      if stop {
        k := d;
        CutInHead(dots, row, d);
        eof, error := Conclude(false, dots + row, dots[..d]);
        return;
      }
      assert dots[..2] == dots;
      var m;
      m, stop := EmitRow(row, dots);
      CutInTail(dots, row, m);
      // A list of modules ends with a call that finds none, which takes room to get to.
      var exhausted := !stop && m == |row| && (!container || marker.None? || resid > 0);
      k := |dots + row[..m]|;
      eof, error := Conclude(exhausted, dots + row, dots + row[..m]);
    }

    /** sysfs_vnop_readdir(): whatever the directory is, the answer is right for its listing. */
    method Read(cells: map<nat, M.Node>, dir: FsNode, snap: Snapshot?, modules: seq<(string, nat)>, ghost w: World)
      returns (ghost k: nat, eof: bool, error: nat)
      requires Walked([]) && WellFormed(w) && w.cells == cells && w.modules == modules && dir.at in cells
      requires Tied(snap, w.snap)
      modifies this
      ensures Answers(ItemsOf(w, dir), Answer(k, eof, error))
    {
      var node := cells[dir.at];
      if node.kind == M.Device {
        k, eof, error := ReadDevices(cells, dir, snap, w);
      } else if IsModuleContainer(node) || node.kind == M.Module {
        k, eof, error := ReadModules(cells, dir, modules, w);
      } else if IsClassDir(node) {
        k, eof, error := ReadClass(cells, dir, snap, w);
      } else {
        k, eof, error := ReadStatic(cells, dir);
      }
    }
  }

  /** The directory and what it links to are in the tree. */
  ghost predicate InTree(cells: map<nat, M.Node>, dir: FsNode) {
    dir.at in cells && (cells[dir.at].parent.Some? ==> cells[dir.at].parent.value in cells) &&
    forall k :: 0 <= k < |cells[dir.at].children| ==> cells[dir.at].children[k] in cells
  }

  lemma StaticStep(cells: map<nat, M.Node>, dir: FsNode, kids: seq<nat>, i: nat)
    requires InTree(cells, dir) && kids == cells[dir.at].children && i < |kids|
    ensures var child, done := cells[kids[i]], StaticItems(cells, dir, kids[..i]);
            StaticItems(cells, dir, kids[..i + 1]) == if child.kind == M.Root then done
                                                      else done + [StaticItem(cells, dir, child)]
  {
    assert kids[..i + 1][..i] == kids[..i];
  }

  lemma {:induction false} StaticPrefix(cells: map<nat, M.Node>, dir: FsNode, kids: seq<nat>, i: nat)
    requires InTree(cells, dir) && kids == cells[dir.at].children && i <= |kids|
    ensures var done, items := StaticItems(cells, dir, kids[..i]), StaticItems(cells, dir, kids);
            && done <= items
            && (i < |kids| && cells[kids[i]].kind != M.Root ==>
                  |done| < |items| && items[|done|] == StaticItem(cells, dir, cells[kids[i]]))
    decreases |kids| - i
  {
    if i < |kids| {
      StaticStep(cells, dir, kids, i);
      StaticPrefix(cells, dir, kids, i + 1);
    } else {
      assert kids[..i] == kids;
    }
  }

  /** The arrays of a snapshot. */
  function Tables(snap: Snapshot?): set<object> {
    if snap == null then {} else {snap.nodes as object, snap.childIdx as object, snap.hash as object}
  }

  /** The snapshot object and the value names are resolved against. */
  ghost predicate Tied(snap: Snapshot?, sv: Option<Built>)
    reads Tables(snap)
  {
    if snap == null then sv.None? else snap.Valid() && sv == Some(snap.value)
  }

  /** sysfs_iokit_child_at(), which finds nothing while no snapshot is published. */
  method ChildAt(snap: Snapshot?, regid: nat, i: nat, baseId: nat, ghost sv: Option<Built>)
    returns (child: Option<Item>)
    requires Tied(snap, sv)
    ensures var row := RowOf(ChildPairs(sv, regid), Directory, DIR_OBJID, baseId);
            child == if i < |row| then Some(row[i]) else None
  {
    if snap == null {
      return None;
    }
    var listed := snap.ChildAt(regid, i, NAME_BUFFER);
    if listed.None? {
      return None;
    }
    ShownAt(sv.value.base, ChildList(sv.value, IndexMap(sv.value.base)[regid]), i);
    RowOfAt(ChildPairs(sv, regid), Directory, DIR_OBJID, baseId, i);
    return Some(Item(listed.value.0, Directory, NodeId(listed.value.1, DIR_OBJID, baseId)));
  }

  /** sysfs_iokit_class_child_at(). */
  method MemberAt(snap: Snapshot?, classId: nat, wholeOnly: bool, i: nat, baseId: nat, ghost sv: Option<Built>)
    returns (member: Option<Item>)
    requires Tied(snap, sv)
    ensures var row := RowOf(MemberPairs(sv, classId, wholeOnly), Symlink, NO_OBJECTID, baseId);
            member == if i < |row| then Some(row[i]) else None
  {
    if snap == null {
      return None;
    }
    var listed := snap.ClassChildAt(classId, wholeOnly, i, NAME_BUFFER);
    if listed.None? {
      return None;
    }
    DeviceNamesAt(sv.value.base, Members(sv.value.base, classId, wholeOnly), i);
    RowOfAt(MemberPairs(sv, classId, wholeOnly), Symlink, NO_OBJECTID, baseId, i);
    return Some(Item(listed.value.0, Symlink, NodeId(listed.value.1, NO_OBJECTID, baseId)));
  }

  // Where in a listing of two or three parts a call stopped.

  lemma CutInHead(a: seq<Item>, b: seq<Item>, k: nat)
    requires k < |a|
    ensures a[..k] <= a + b && a[..k] != a + b && (a + b)[k] == a[k]
  {
  }

  lemma CutInTail(a: seq<Item>, b: seq<Item>, k: nat)
    requires k <= |b|
    ensures a + b[..k] <= a + b && (a + b[..k] == a + b <==> k == |b|)
    ensures k < |b| ==> (a + b)[|a + b[..k]|] == b[k]
  {
    if k == |b| { assert b[..k] == b; }
  }

  lemma OneMore(done: seq<Item>, row: seq<Item>, i: nat)
    requires i < |row|
    ensures done + row[..i] + [row[i]] == done + row[..i + 1]
  {
  }

  lemma CutInFirst(a: seq<Item>, b: seq<Item>, c: seq<Item>, k: nat)
    requires k < |a|
    ensures a[..k] <= a + b + c && a[..k] != a + b + c && (a + b + c)[k] == a[k]
  {
  }

  lemma CutInSecond(a: seq<Item>, b: seq<Item>, c: seq<Item>, k: nat)
    requires k < |b|
    ensures a + b[..k] <= a + b + c && a + b[..k] != a + b + c && (a + b + c)[|a + b[..k]|] == b[k]
  {
  }

  lemma CutInThird(a: seq<Item>, b: seq<Item>, c: seq<Item>, m: nat, some: seq<Item>)
    requires m <= |b| && some <= c && (m < |b| ==> some == [])
    ensures a + b[..m] + some <= a + b + c
    ensures a + b[..m] + some == a + b + c <==> m == |b| && |some| == |c|
    ensures m == |b| && |some| < |c| ==> (a + b + c)[|a + b[..m] + some|] == c[|some|]
  {
    if m == |b| { assert b[..m] == b; }
  }
}
