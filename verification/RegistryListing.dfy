/**
 What the directory of a registry entry lists, said on the registry walk itself: which entries, in
 which order, and under which names (kext/sysfs_iokit.cpp:528-591, :606-695, :819-838).
 */
module RegistryListing {
  import opened Wrappers
  import opened ClassListing
  import opened DevicePath
  import opened Directories
  import opened Dirents
  import opened Names
  import opened Registry
  import opened Snapshot
  import M = StructureMemory

  // ---------- On the walk

  /** The registry name as far as 127 characters. */
  function StoredName(e: Entry): string {
    if e.name.Some? then Cut(e.name.value, 127) else "unknown"
  }

  /** Entry j is recorded, and its id is r. */
  ghost predicate Carries(walk: seq<Entry>, cap: nat, j: nat, r: nat)
    requires j < |walk|
  {
    IsRecorded(walk, cap, j) && walk[j].regid == r
  }

  /** The id is that of the root, or of a recorded one of the first n entries. */
  ghost predicate HasEntry(walk: seq<Entry>, cap: nat, r: nat, n: nat)
    requires n <= |walk|
  {
    r == 0 || exists j: nat {:trigger Carries(walk, cap, j, r)} :: j < n && Carries(walk, cap, j, r)
  }

  /** Entry j is recorded and belongs below id r: the parent it names, or the root if that was not recorded. */
  ghost predicate IsUnder(walk: seq<Entry>, cap: nat, j: nat, r: nat)
    requires j < |walk|
  {
    IsRecorded(walk, cap, j) &&
    if HasEntry(walk, cap, walk[j].parentRegid, |walk|) then walk[j].parentRegid == r else r == 0
  }

  /** How many of the first n entries are below r and have that name. */
  ghost function Namesakes(walk: seq<Entry>, cap: nat, r: nat, name: string, n: nat): nat
    requires n <= |walk|
  {
    if n == 0 then 0
    else
      Namesakes(walk, cap, r, name, n - 1) +
      if IsUnder(walk, cap, n - 1, r) && StoredName(walk[n - 1]) == name then 1 else 0
  }

  /** The entries below r among the first n, in walk order: name and id, with "@k" if k of that name come before it. */
  ghost function ListedUnder(walk: seq<Entry>, cap: nat, r: nat, n: nat): seq<(string, nat)>
    requires n <= |walk|
  {
    if n == 0 then []
    else
      var e := walk[n - 1];
      var k := Namesakes(walk, cap, r, StoredName(e), n - 1);
      ListedUnder(walk, cap, r, n - 1) +
      if !IsUnder(walk, cap, n - 1, r) then []
      else if k == 0 then [(StoredName(e), e.regid)]
      else [(StoredName(e) + "@" + Decimal(k), e.regid)]
  }

  // ---------- The recorded table

  lemma {:induction false} KeptPrefix(walk: seq<Entry>, cap: nat, n: nat, m: nat)
    requires n <= m <= |walk| && cap >= 1
    ensures Kept(walk, cap, n) <= Kept(walk, cap, m)
    decreases m
  {
    if n < m {
      KeptPrefix(walk, cap, n, m - 1);
      KeptGrows(walk, cap, m - 1);
    }
  }

  /** The next entry, if it is recorded, comes right after what was recorded before it. */
  lemma {:induction false} NextNode(walk: seq<Entry>, cap: nat, n: nat)
    requires n < |walk| && cap >= 1
    ensures var base, m := Recorded(walk, cap), |Kept(walk, cap, n)|;
            && 1 <= m <= |base| && |Kept(walk, cap, n + 1)| == m + (if IsRecorded(walk, cap, n) then 1 else 0)
            && (IsRecorded(walk, cap, n) ==> m < |base| && base[m] == NodeOf(walk[n]))
  {
    KeptGrows(walk, cap, n);
    KeptPrefix(walk, cap, n + 1, |walk|);
    TableSize(walk, n);
  }

  lemma {:induction false} OneMoreEntry(walk: seq<Entry>, cap: nat, r: nat, n: nat)
    requires 0 < n <= |walk|
    ensures HasEntry(walk, cap, r, n) <==> HasEntry(walk, cap, r, n - 1) || Carries(walk, cap, n - 1, r)
  {
  }

  lemma {:induction false} KeptIds(walk: seq<Entry>, cap: nat, r: nat, n: nat)
    requires n <= |walk| && cap >= 1
    ensures HasId(Kept(walk, cap, n), r) <==> HasEntry(walk, cap, r, n)
  {
    if n == 0 {
      assert Kept(walk, cap, n) == [ROOT] && [ROOT][0].regid == 0;
    } else {
      KeptIds(walk, cap, r, n - 1);
      KeptGrows(walk, cap, n - 1);
      OneMoreEntry(walk, cap, r, n);
      if IsRecorded(walk, cap, n - 1) {
        HasIdAppend(Kept(walk, cap, n - 1), NodeOf(walk[n - 1]), r);
      } else {
        assert Kept(walk, cap, n) == Kept(walk, cap, n - 1);
      }
    }
  }

  /** The recorded parent of the next entry is the node of id r just if the entry belongs below r. */
  lemma {:induction false} NextParent(walk: seq<Entry>, cap: nat, n: nat, p: nat)
    requires n < |walk| && cap >= 1 && IsRecorded(walk, cap, n) && p < |Recorded(walk, cap)|
    ensures var base, m := Recorded(walk, cap), |Kept(walk, cap, n)|;
            m < |base| && (Parents(base)[m] == p <==> IsUnder(walk, cap, n, base[p].regid))
  {
    var base, m, up := Recorded(walk, cap), |Kept(walk, cap, n)|, walk[n].parentRegid;
    NextNode(walk, cap, n);
    RecordedDistinct(walk, cap);
    ParentsAt(base, |base|, m);
    IndexMapIds(base, up);
    KeptIds(walk, cap, up, |walk|);
    IndexMapInverts(base, p);
    IndexMapInverts(base, 0);
  }

  // ---------- The children of a node

  /** The children so far are listed as the first n entries say. */
  ghost predicate Agree(base: seq<SnapNode>, kids: seq<nat>, walk: seq<Entry>, cap: nat, r: nat, n: nat)
    requires n <= |walk| && forall k :: 0 <= k < |kids| ==> 1 <= kids[k] < |base|
  {
    && Shown(base, kids) == ListedUnder(walk, cap, r, n)
    && forall name {:trigger CountEqual(NamesOf(base, kids), name)} ::
         CountEqual(NamesOf(base, kids), name) == Namesakes(walk, cap, r, name, n)
  }

  /** One child more. */
  lemma {:induction false} KidsGrow(base: seq<SnapNode>, kids: seq<nat>, m: nat)
    requires (forall k :: 0 <= k < |kids| ==> 1 <= kids[k] < |base|) && 1 <= m < |base|
    requires |NodeDisplay(base, m)| < NAME_BUFFER
    ensures Shown(base, kids + [m]) == Shown(base, kids) + [(NodeDisplay(base, m), base[m].regid)]
    ensures NamesOf(base, kids + [m]) == NamesOf(base, kids) + [base[m].name]
  {
    assert (kids + [m])[..|kids|] == kids;
  }

  lemma {:induction false} CountSnoc(names: seq<string>, last: string, name: string)
    ensures CountEqual(names + [last], name) == CountEqual(names, name) + if last == name then 1 else 0
  {
    assert (names + [last])[..|names|] == names;
  }

  lemma {:induction false} AgreeOnUnder(base: seq<SnapNode>, kids: seq<nat>, m: nat, walk: seq<Entry>, cap: nat, r: nat,
                                        n: nat)
    requires n < |walk| && (forall k :: 0 <= k < |kids| ==> 1 <= kids[k] < |base|) && 1 <= m < |base|
    requires IsUnder(walk, cap, n, r) && base[m].name == StoredName(walk[n]) && base[m].regid == walk[n].regid
    requires NodeDisplay(base, m) == Display(base[m].name, CountEqual(NamesOf(base, kids), base[m].name))
    requires |NodeDisplay(base, m)| < NAME_BUFFER && Agree(base, kids, walk, cap, r, n)
    ensures Agree(base, kids + [m], walk, cap, r, n + 1)
  {
    KidsGrow(base, kids, m);
    forall name ensures CountEqual(NamesOf(base, kids + [m]), name) == Namesakes(walk, cap, r, name, n + 1) {
      CountSnoc(NamesOf(base, kids), base[m].name, name);
    }
  }

  lemma {:induction false} OtherAdds(walk: seq<Entry>, cap: nat, r: nat, name: string, n: nat)
    requires n < |walk| && !IsUnder(walk, cap, n, r)
    ensures ListedUnder(walk, cap, r, n + 1) == ListedUnder(walk, cap, r, n)
    ensures Namesakes(walk, cap, r, name, n + 1) == Namesakes(walk, cap, r, name, n)
  {
  }

  lemma {:induction false} AgreeOnOther(base: seq<SnapNode>, kids: seq<nat>, walk: seq<Entry>, cap: nat, r: nat, n: nat)
    requires n < |walk| && (forall k :: 0 <= k < |kids| ==> 1 <= kids[k] < |base|)
    requires !IsUnder(walk, cap, n, r) && Agree(base, kids, walk, cap, r, n)
    ensures Agree(base, kids, walk, cap, r, n + 1)
  {
    OtherAdds(walk, cap, r, "", n);
    forall name ensures CountEqual(NamesOf(base, kids), name) == Namesakes(walk, cap, r, name, n + 1) {
      OtherAdds(walk, cap, r, name, n);
    }
  }

  /** How a node is shown, from the children before it. */
  lemma {:induction false} ShownAs(base: seq<SnapNode>, p: nat, m: nat)
    requires ShortNames(base) && 1 <= m < |base| <= MAX_NODES && Parents(base)[m] == p
    ensures forall k :: 0 <= k < |ChildrenBelow(Parents(base), p, m)| ==> ChildrenBelow(Parents(base), p, m)[k] < |base|
    ensures NodeDisplay(base, m) ==
            Display(base[m].name, CountEqual(NamesOf(base, ChildrenBelow(Parents(base), p, m)), base[m].name))
    ensures |NodeDisplay(base, m)| < NAME_BUFFER
  {
    ChildrenInside(Parents(base), p, m);
    OrdinalSmall(base, m);
    DisplayFits(base[m].name, Ordinal(base, m));
  }

  /** The next entry belongs below node p: it is the next child. */
  lemma {:induction false} AgreeOnNext(walk: seq<Entry>, cap: nat, base: seq<SnapNode>, p: nat, n: nat, m: nat,
                                       kids: seq<nat>)
    requires n < |walk| && cap >= 1 && base == Recorded(walk, cap) && p < |base| <= MAX_NODES
    requires m == |Kept(walk, cap, n)| && IsRecorded(walk, cap, n) && IsUnder(walk, cap, n, base[p].regid)
    requires m < |base| && kids == ChildrenBelow(Parents(base), p, m)
    requires forall k :: 0 <= k < |kids| ==> 1 <= kids[k] < |base|
    requires Agree(base, kids, walk, cap, base[p].regid, n)
    ensures m >= 1 && Agree(base, kids + [m], walk, cap, base[p].regid, n + 1)
  {
    NextNode(walk, cap, n);
    NextParent(walk, cap, n, p);
    RecordedShortNames(walk, cap);
    Stored(walk[n], 1, false);
    ShownAs(base, p, m);
    AgreeOnUnder(base, kids, m, walk, cap, base[p].regid, n);
  }

  /** One entry more: the children of node p grow with it just if it belongs below p. */
  lemma {:induction false} NextKids(walk: seq<Entry>, cap: nat, base: seq<SnapNode>, p: nat, n: nat, m: nat, m': nat)
    requires n < |walk| && cap >= 1 && base == Recorded(walk, cap) && p < |base|
    requires m == |Kept(walk, cap, n)| <= |base| && m' == |Kept(walk, cap, n + 1)| <= |base|
    ensures IsUnder(walk, cap, n, base[p].regid) ==> 1 <= m < |base| && IsRecorded(walk, cap, n)
    ensures ChildrenBelow(Parents(base), p, m') ==
            ChildrenBelow(Parents(base), p, m) + if IsUnder(walk, cap, n, base[p].regid) then [m] else []
  {
    NextNode(walk, cap, n);
    if IsRecorded(walk, cap, n) {
      NextParent(walk, cap, n, p);
    }
  }

  lemma {:induction false} AgreeNext(walk: seq<Entry>, cap: nat, base: seq<SnapNode>, p: nat, n: nat, m: nat,
                                     kids: seq<nat>, kids': seq<nat>)
    requires n < |walk| && cap >= 1 && base == Recorded(walk, cap) && p < |base| <= MAX_NODES
    requires m == |Kept(walk, cap, n)| <= |base| && kids == ChildrenBelow(Parents(base), p, m)
    requires IsUnder(walk, cap, n, base[p].regid) ==> 1 <= m < |base| && IsRecorded(walk, cap, n)
    requires kids' == kids + if IsUnder(walk, cap, n, base[p].regid) then [m] else []
    requires forall k :: 0 <= k < |kids| ==> 1 <= kids[k] < |base|
    requires Agree(base, kids, walk, cap, base[p].regid, n)
    ensures forall k :: 0 <= k < |kids'| ==> 1 <= kids'[k] < |base|
    ensures Agree(base, kids', walk, cap, base[p].regid, n + 1)
  {
    if IsUnder(walk, cap, n, base[p].regid) {
      AgreeOnNext(walk, cap, base, p, n, m, kids);
    } else {
      assert kids' == kids;
      AgreeOnOther(base, kids, walk, cap, base[p].regid, n);
    }
  }

  /** The children of node p recorded so far are listed as the first n entries say. */
  ghost predicate SoFar(walk: seq<Entry>, cap: nat, base: seq<SnapNode>, p: nat, n: nat)
    requires n <= |walk| && p < |base|
  {
    |Kept(walk, cap, n)| <= |base| &&
    var kids := ChildrenBelow(Parents(base), p, |Kept(walk, cap, n)|);
    (forall k :: 0 <= k < |kids| ==> 1 <= kids[k] < |base|) && Agree(base, kids, walk, cap, base[p].regid, n)
  }

  lemma {:induction false} NoneSoFar(walk: seq<Entry>, cap: nat, base: seq<SnapNode>, p: nat)
    requires cap >= 1 && p < |base|
    ensures SoFar(walk, cap, base, p, 0)
  {
  }

  /** One entry more. */
  lemma {:induction false} OneSoFar(walk: seq<Entry>, cap: nat, base: seq<SnapNode>, p: nat, n: nat)
    requires n < |walk| && cap >= 1 && base == Recorded(walk, cap) && p < |base| <= MAX_NODES
    requires SoFar(walk, cap, base, p, n)
    ensures SoFar(walk, cap, base, p, n + 1)
  {
    var m, m' := |Kept(walk, cap, n)|, |Kept(walk, cap, n + 1)|;
    KeptPrefix(walk, cap, n + 1, |walk|);
    NextKids(walk, cap, base, p, n, m, m');
    AgreeNext(walk, cap, base, p, n, m, ChildrenBelow(Parents(base), p, m), ChildrenBelow(Parents(base), p, m'));
  }

  lemma {:induction false} AllSoFar(walk: seq<Entry>, cap: nat, base: seq<SnapNode>, p: nat, n: nat)
    requires n <= |walk| && cap >= 1 && base == Recorded(walk, cap) && p < |base| <= MAX_NODES
    ensures SoFar(walk, cap, base, p, n)
    decreases n
  {
    if n == 0 {
      NoneSoFar(walk, cap, base, p);
    } else {
      AllSoFar(walk, cap, base, p, n - 1);
      OneSoFar(walk, cap, base, p, n - 1);
    }
  }

  /**
   Over a snapshot of a walk, the root and every recorded entry have as children exactly the recorded
   entries that belong below them, in walk order, each under its own name, numbered from the second of
   a name on; none if the child lists could not be built.
   */
  lemma {:induction false} ChildrenAreListed(walk: seq<Entry>, cap: nat, snap: Built, r: nat)
    requires cap >= 1 && snap.base == Recorded(walk, cap)
    ensures ChildPairs(Some(snap), r) ==
            if !snap.degraded && HasEntry(walk, cap, r, |walk|) then ListedUnder(walk, cap, r, |walk|) else []
  {
    var base := snap.base;
    KeptIds(walk, cap, r, |walk|);
    IndexMapIds(base, r);
    if r in IndexMap(base) && !snap.degraded {
      AllSoFar(walk, cap, base, IndexMap(base)[r], |walk|);
    }
  }

  /** "." and ".." with that id, some items, and then a directory for every pair of name and id. */
  ghost predicate EndsWith(items: seq<Item>, id: NodeId, middle: seq<Item>, pairs: seq<(string, nat)>) {
    && |items| == 2 + |middle| + |pairs| && items[2..2 + |middle|] == middle
    && items[0] == Item(".", Directory, id) && items[1] == Item("..", Directory, id)
    && forall i :: 0 <= i < |pairs| ==>
         items[2 + |middle| + i] == Item(pairs[i].0, Directory, NodeId(pairs[i].1, 0, id.baseId))
  }

  lemma {:induction false} RowAtEnd(id: NodeId, middle: seq<Item>, pairs: seq<(string, nat)>)
    ensures EndsWith(Dots(id) + middle + RowOf(pairs, Directory, DIR_OBJID, id.baseId), id, middle, pairs)
  {
    var row := RowOf(pairs, Directory, DIR_OBJID, id.baseId);
    forall i | 0 <= i < |pairs| ensures row[i] == Item(pairs[i].0, Directory, NodeId(pairs[i].1, 0, id.baseId)) {
      RowOfAt(pairs, Directory, DIR_OBJID, id.baseId, i);
    }
  }

  /**
   The directory of a device, or devices itself, lists "." and ".." with its own id, then its attribute
   "name", or the static entries of devices, and then, as directories, the children of the entry.
   */
  lemma {:induction false} DeviceListsWalk(w: World, dir: FsNode, walk: seq<Entry>, cap: nat)
    requires WellFormed(w) && dir.at in w.cells && w.cells[dir.at].kind == M.Device
    requires w.snap.Some? && cap >= 1 && w.snap.value.base == Recorded(walk, cap) && !w.snap.value.degraded
    requires HasEntry(walk, cap, dir.id.regid, |walk|)
    ensures var id := NodeId(dir.id.regid, dir.id.objectid, w.cells[dir.at].baseId);
            EndsWith(ItemsOf(w, dir), id,
                     if dir.id.regid == 0 then DeviceStatics(w.cells, w.cells[dir.at].children)
                     else [Item("name", Regular, NodeId(dir.id.regid, 1, id.baseId))],
                     ListedUnder(walk, cap, dir.id.regid, |walk|))
  {
    ChildrenAreListed(walk, cap, w.snap.value, dir.id.regid);
    RowAtEnd(SelfId(w.cells, dir), DeviceRow(w.cells, dir), ChildPairs(w.snap, dir.id.regid));
  }
}
