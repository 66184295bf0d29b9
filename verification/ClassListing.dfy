/**
 What a class directory lists, said on the registry walk itself: which entries, in which order, and
 under which names (kext/sysfs_iokit.cpp:543-588, :1014-1050; kext/sysfs_vnops.c:930-996).
 */
module ClassListing {
  import opened Wrappers
  import opened Directories
  import opened Dirents
  import opened Registry
  import opened Snapshot
  import opened StructureBuild

  // ---------- On the walk

  function Cut(s: string, n: nat): string {
    if |s| <= n then s else s[..n]
  }

  /** The entry is of class k and has a device name; in a directory of whole disks it is a whole block device. */
  predicate Belongs(e: Entry, k: nat, wholeOnly: bool) {
    e.kind == k && (e.bsdName.Some? || k == CLASS_POWER) && (wholeOnly ==> k == CLASS_BLOCK && e.whole)
  }

  /** The BSD name, or for want of one the registry name, as far as 31 characters. */
  function DeviceName(e: Entry): string {
    if e.bsdName.Some? then Cut(e.bsdName.value, 31)
    else if e.name.Some? then Cut(e.name.value, 31)
    else "unknown"
  }

  /** How many of the first n entries are recorded if there is room: first occurrences of an id that is not 0. */
  ghost function Firsts(walk: seq<Entry>, n: nat): nat
    requires n <= |walk|
  {
    if n == 0 then 0 else Firsts(walk, n - 1) + if IsFirst(walk, n - 1) then 1 else 0
  }

  /** Entry j is recorded: it is a first occurrence, and the root and those before it leave room. */
  ghost predicate IsRecorded(walk: seq<Entry>, cap: nat, j: nat)
    requires j < |walk|
  {
    IsFirst(walk, j) && 1 + Firsts(walk, j) < cap
  }

  /** The recorded entries of the class among the first n, in walk order, with name and id. */
  ghost function Listed(walk: seq<Entry>, cap: nat, k: nat, wholeOnly: bool, n: nat): seq<(string, nat)>
    requires n <= |walk|
  {
    if n == 0 then []
    else
      Listed(walk, cap, k, wholeOnly, n - 1) +
      if IsRecorded(walk, cap, n - 1) && Belongs(walk[n - 1], k, wholeOnly)
      then [(DeviceName(walk[n - 1]), walk[n - 1].regid)] else []
  }

  // ---------- What is stored

  /**
   What is stored of an entry: its ids, its name as far as 127 characters, and its class and device
   name if it has both.
   */
  lemma Stored(e: Entry, k: nat, wholeOnly: bool)
    requires k != CLASS_NONE
    ensures NodeOf(e).regid == e.regid && NodeOf(e).parentRegid == e.parentRegid
    ensures NodeOf(e).name == if e.name.Some? then Cut(e.name.value, 127) else "unknown"
    ensures IsMember(NodeOf(e), k, wholeOnly) <==> Belongs(e, k, wholeOnly)
    ensures Belongs(e, k, wholeOnly) ==> NodeOf(e).bsdName == DeviceName(e)
  {
  }

  /** What a walk has recorded after n entries in a table of `cap` nodes. */
  ghost function Kept(walk: seq<Entry>, cap: nat, n: nat): seq<SnapNode>
    requires n <= |walk|
  {
    if |TableAfter(walk, n)| <= cap then TableAfter(walk, n) else TableAfter(walk, n)[..cap]
  }

  lemma {:induction false} TableSize(walk: seq<Entry>, n: nat)
    requires n <= |walk|
    ensures |TableAfter(walk, n)| == 1 + Firsts(walk, n)
  {
    if n > 0 { TableSize(walk, n - 1); }
  }

  lemma KeptGrows(walk: seq<Entry>, cap: nat, n: nat)
    requires n < |walk| && cap >= 1
    ensures Kept(walk, cap, n + 1) == Kept(walk, cap, n) + if IsRecorded(walk, cap, n) then [NodeOf(walk[n])] else []
  {
    TableSize(walk, n);
  }

  // ---------- The members of a table

  ghost function PairsOf(base: seq<SnapNode>, k: nat, wholeOnly: bool): seq<(string, nat)> {
    DeviceNames(base, Members(base, k, wholeOnly))
  }

  lemma {:induction false} MembersStay(base: seq<SnapNode>, node: SnapNode, k: nat, wholeOnly: bool, n: nat)
    requires n <= |base|
    ensures MembersBelow(base + [node], k, wholeOnly, n) == MembersBelow(base, k, wholeOnly, n)
  {
    if n > 1 { MembersStay(base, node, k, wholeOnly, n - 1); }
  }

  lemma {:induction false} NamesStay(base: seq<SnapNode>, node: SnapNode, members: seq<nat>)
    requires forall i :: 0 <= i < |members| ==> members[i] < |base|
    ensures DeviceNames(base + [node], members) == DeviceNames(base, members)
  {
    if members != [] { NamesStay(base, node, members[..|members| - 1]); }
  }

  lemma {:induction false} PairsGrow(base: seq<SnapNode>, node: SnapNode, k: nat, wholeOnly: bool)
    requires base != [] && |node.bsdName| < BSD_NAME_MAX
    ensures PairsOf(base + [node], k, wholeOnly) ==
            PairsOf(base, k, wholeOnly) + if IsMember(node, k, wholeOnly) then [(node.bsdName, node.regid)] else []
  {
    var grown, members := base + [node], Members(base, k, wholeOnly);
    MembersStay(base, node, k, wholeOnly, |base|);
    NamesStay(base, node, members);
    if IsMember(node, k, wholeOnly) {
      assert Members(grown, k, wholeOnly) == members + [|base|];
      assert (members + [|base|])[..|members|] == members;
    } else {
      assert Members(grown, k, wholeOnly) == members;
      assert PairsOf(base, k, wholeOnly) + [] == PairsOf(base, k, wholeOnly);
    }
  }

  /** One entry more, recorded or not. */
  lemma {:induction false} PairsStep(before: seq<SnapNode>, after: seq<SnapNode>, e: Entry, recorded: bool, k: nat,
                                     wholeOnly: bool)
    requires before != [] && k != CLASS_NONE && after == before + if recorded then [NodeOf(e)] else []
    ensures PairsOf(after, k, wholeOnly) ==
            PairsOf(before, k, wholeOnly) +
            if recorded && Belongs(e, k, wholeOnly) then [(DeviceName(e), e.regid)] else []
  {
    if recorded {
      PairsGrow(before, NodeOf(e), k, wholeOnly);
      Stored(e, k, wholeOnly);
    } else {
      assert after == before && PairsOf(before, k, wholeOnly) + [] == PairsOf(before, k, wholeOnly);
    }
  }

  lemma {:induction false} OneMoreListed(walk: seq<Entry>, cap: nat, k: nat, wholeOnly: bool, n: nat,
                                         base: seq<SnapNode>, grown: seq<SnapNode>)
    requires 0 < n <= |walk| && cap >= 1 && k != CLASS_NONE
    requires base == Kept(walk, cap, n - 1) != [] && grown == Kept(walk, cap, n)
    requires PairsOf(base, k, wholeOnly) == Listed(walk, cap, k, wholeOnly, n - 1)
    ensures grown != [] && PairsOf(grown, k, wholeOnly) == Listed(walk, cap, k, wholeOnly, n)
  {
    KeptGrows(walk, cap, n - 1);
    PairsStep(base, grown, walk[n - 1], IsRecorded(walk, cap, n - 1), k, wholeOnly);
  }

  lemma {:induction false} KeptPairs(walk: seq<Entry>, cap: nat, k: nat, wholeOnly: bool, n: nat, base: seq<SnapNode>)
    requires n <= |walk| && cap >= 1 && k != CLASS_NONE && base == Kept(walk, cap, n)
    ensures base != [] && PairsOf(base, k, wholeOnly) == Listed(walk, cap, k, wholeOnly, n)
  {
    if n > 0 {
      var before := Kept(walk, cap, n - 1);
      KeptPairs(walk, cap, k, wholeOnly, n - 1, before);
      OneMoreListed(walk, cap, k, wholeOnly, n, before, base);
    }
  }

  // ---------- The listing

  /** The members of a class that a snapshot of the walk lists. */
  lemma MembersAreListed(walk: seq<Entry>, cap: nat, snap: Built, k: nat, wholeOnly: bool)
    requires cap >= 1 && snap.base == Recorded(walk, cap) && k != CLASS_NONE
    ensures MemberPairs(Some(snap), k, wholeOnly) == Listed(walk, cap, k, wholeOnly, |walk|)
  {
    KeptPairs(walk, cap, k, wholeOnly, |walk|, snap.base);
  }

  /**
   A class directory lists, after "." and "..", one symlink for each entry of the walk that is recorded
   and belongs to its class, in walk order, under its device name and with its id.
   */
  lemma ClassListsWalk(w: World, dir: FsNode, walk: seq<Entry>, cap: nat)
    requires WellFormed(w) && dir.at in w.cells && IsClassDir(w.cells[dir.at]) && !IsModuleContainer(w.cells[dir.at])
    requires w.snap.Some? && cap >= 1 && w.snap.value.base == Recorded(walk, cap)
    ensures var node := w.cells[dir.at];
            var listed := Listed(walk, cap, node.instance, node.flags.wholeOnly, |walk|);
            && |ItemsOf(w, dir)| == 2 + |listed|
            && forall i :: 0 <= i < |listed| ==>
                 ItemsOf(w, dir)[2 + i] == Item(listed[i].0, Symlink, NodeId(listed[i].1, NO_OBJECTID, node.baseId))
  {
    var node := w.cells[dir.at];
    MembersAreListed(walk, cap, w.snap.value, node.instance, node.flags.wholeOnly);
    RowAfterDots(SelfId(w.cells, dir), MemberPairs(w.snap, node.instance, node.flags.wholeOnly), node.baseId);
  }

  lemma RowAfterDots(id: NodeId, pairs: seq<(string, nat)>, baseId: nat)
    ensures var items := Dots(id) + RowOf(pairs, Symlink, NO_OBJECTID, baseId);
            && |items| == 2 + |pairs|
            && forall i :: 0 <= i < |pairs| ==>
                 items[2 + i] == Item(pairs[i].0, Symlink, NodeId(pairs[i].1, NO_OBJECTID, baseId))
  {
    var row := RowOf(pairs, Symlink, NO_OBJECTID, baseId);
    forall i | 0 <= i < |pairs| ensures row[i] == Item(pairs[i].0, Symlink, NodeId(pairs[i].1, NO_OBJECTID, baseId)) {
      RowOfAt(pairs, Symlink, NO_OBJECTID, baseId, i);
    }
  }
}
