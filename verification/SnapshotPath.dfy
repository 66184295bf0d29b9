/**
 Rendering a device path from a snapshot (kext/sysfs_iokit.cpp:1082-1130): climb into a
 fixed array, then write the names out in reverse, or nothing at all.
 */
module SnapshotPath {
  import opened DevicePath
  import opened Names
  import opened Registry
  import opened Snapshot
  import opened SnapshotChildren
  import SI = SnapshotIndex

  /** Line 1107: the parent's index; an uncaptured parent is as good as the root. */
  method ParentLookup(table: array<SnapNode>, slots: array<SI.Slot>, idx: nat, ghost t: Indexed) returns (up: nat)
    requires Holding(table, slots, t) && idx < |t.base|
    ensures up == SI.NONE || up < |t.base|
    ensures (if up == SI.NONE then 0 else up) == Parents(t.base)[idx]
  {
    assert table[idx] == t.nodes[idx];
    ParentsAt(t.base, |t.base|, idx);
    IndexMapIds(t.base, t.base[idx].parentRegid);
    up := SI.Find(slots, table[idx].parentRegid, IndexMap(t.base));
  }

  /** What is still to climb from `here` completes what has been collected. */
  ghost predicate Climbing(base: seq<SnapNode>, start: nat, limit: nat, chain: seq<nat>, here: nat) {
    start < |base| && here < |base| && |chain| <= limit &&
    Climb(base, start, limit) == chain + Climb(base, here, limit - |chain|)
  }

  lemma ClimbStep(base: seq<SnapNode>, start: nat, limit: nat, chain: seq<nat>, chain': seq<nat>, idx: nat, up: nat)
    requires Climbing(base, start, limit, chain, idx) && |chain| < limit && 1 <= idx
    requires up == Parents(base)[idx] < |base|
    requires chain' == chain + [idx]
    ensures Climbing(base, start, limit, chain', up)
  {
    assert Climb(base, idx, limit - |chain|) == [idx] + Climb(base, up, limit - |chain| - 1);
  }

  lemma ClimbDone(base: seq<SnapNode>, start: nat, limit: nat, chain: seq<nat>, here: nat)
    requires Climbing(base, start, limit, chain, here) && (here == 0 || |chain| == limit)
    ensures chain == Climb(base, start, limit)
  {
    assert Climb(base, here, limit - |chain|) == [];
    assert chain + [] == chain;
  }

  /** One turn of the loop: store the index, go up. */
  method ClimbOnce(table: array<SnapNode>, slots: array<SI.Slot>, chain: array<nat>, depth: nat, idx: nat,
                   ghost t: Indexed, ghost start: nat)
    returns (up: nat)
    requires Holding(table, slots, t) && depth < chain.Length && 1 <= idx
    requires Climbing(t.base, start, chain.Length, chain[..depth], idx)
    modifies chain
    ensures up == SI.NONE || up < |t.base|
    ensures Climbing(t.base, start, chain.Length, chain[..depth + 1], if up == SI.NONE then 0 else up)
  {
    up := ParentLookup(table, slots, idx, t);
    ghost var before := chain[..depth];
    chain[depth] := idx;
    assert chain[..depth + 1] == before + [idx];
    ClimbStep(t.base, start, chain.Length, before, chain[..depth + 1], idx, if up == SI.NONE then 0 else up);
  }

  /** Lines 1104-1108: collect at most `limit` indices on the way up. */
  method ClimbUp(table: array<SnapNode>, slots: array<SI.Slot>, regid: nat, limit: nat, ghost t: Indexed)
    returns (chain: array<nat>, depth: nat, ghost start: nat)
    requires Holding(table, slots, t)
    ensures fresh(chain) && depth <= chain.Length == limit
    ensures start < |t.base| && chain[..depth] == Climb(t.base, start, limit)
    ensures start == if regid in IndexMap(t.base) then IndexMap(t.base)[regid] else 0
  {
    chain := new nat[limit];
    depth := 0;
    IndexMapIds(t.base, regid);
    var idx := SI.Find(slots, regid, IndexMap(t.base));
    start := if idx == SI.NONE then 0 else idx;
    assert [] + Climb(t.base, start, limit) == Climb(t.base, start, limit);
    while idx != SI.NONE && idx != 0 && depth < limit
      invariant depth <= limit && Holding(table, slots, t)
      invariant Climbing(t.base, start, limit, chain[..depth], if idx == SI.NONE then 0 else idx)
      decreases limit - depth
    {
      idx := ClimbOnce(table, slots, chain, depth, idx, t, start);
      depth := depth + 1;
    }
    ClimbDone(t.base, start, limit, chain[..depth], if idx == SI.NONE then 0 else idx);
  }

  /** What the stored name and ordinal of a node spell. */
  ghost function Shown(nodes: seq<SnapNode>, x: nat): string
    requires x < |nodes|
  {
    Display(nodes[x].name, nodes[x].dupOrdinal)
  }

  /** The names of a chain, top down. */
  ghost function ShownAll(nodes: seq<SnapNode>, chain: seq<nat>): seq<string>
    requires Inside(chain, |nodes|)
  {
    if chain == [] then [] else ShownAll(nodes, chain[1..]) + [Shown(nodes, chain[0])]
  }

  ghost predicate Inside(chain: seq<nat>, count: nat) {
    forall d :: 0 <= d < |chain| ==> chain[d] < count
  }

  lemma {:induction false} ShownAt(nodes: seq<SnapNode>, chain: seq<nat>, d: nat)
    requires Inside(chain, |nodes|) && d < |chain|
    ensures |ShownAll(nodes, chain)| == |chain| && ShownAll(nodes, chain)[|chain| - 1 - d] == Shown(nodes, chain[d])
  {
    if |chain| > 1 { ShownAt(nodes, chain[1..], if d > 0 then d - 1 else 0); }
  }

  lemma {:induction false} ClimbInside(base: seq<SnapNode>, i: nat, n: nat)
    requires i < |base|
    ensures Inside(Climb(base, i, n), |base|)
    decreases n
  {
    if i != 0 && n > 0 {
      ParentsInside(base);
      ClimbInside(base, Parents(base)[i], n - 1);
    }
  }

  /** With the ordinals in place the stored names are the display names. */
  lemma {:induction false} ShownAreComponents(nodes: seq<SnapNode>, base: seq<SnapNode>, i: nat, n: nat)
    requires |nodes| == |base| && SameButLinks(nodes, base) && OrdinalsStored(nodes, base) && i < |base|
    ensures Inside(Climb(base, i, n), |nodes|) && ShownAll(nodes, Climb(base, i, n)) == Components(base, i, n)
    decreases n
  {
    ClimbInside(base, i, n);
    if i != 0 && n > 0 {
      ParentsInside(base);
      ShownAreComponents(nodes, base, Parents(base)[i], n - 1);
      assert nodes[i].dupOrdinal == Ordinal(base, i);
      assert Climb(base, i, n)[1..] == Climb(base, Parents(base)[i], n - 1);
    }
  }

  /** Lines 1111-1119: one component, with a separator unless nothing has been written. */
  method Component(table: array<SnapNode>, i: nat, first: bool, ghost nodes: seq<SnapNode>) returns (s: string)
    requires i < |nodes| <= table.Length && table[..|nodes|] == nodes
    ensures s == (if first then "" else "/") + Shown(nodes, i)
  {
    var nd := table[i];
    assert nd == nodes[i];
    s := (if first then "" else "/") + Display(nd.name, nd.dupOrdinal);
  }

  /** Writing the next component keeps what is written a joined prefix of the path. */
  lemma {:induction false} NextComponent(names: seq<string>, k: nat, next: nat, buf: string, component: string)
    requires k < |names| && next == k + 1 && buf == Join(names[..k]) && (k == 0 <==> buf == "")
    requires component == (if buf == "" then "" else "/") + names[k]
    ensures Join(names[..next]) == buf + component && |buf + component| <= |Join(names)|
    ensures k == 0 ==> component == names[0]
  {
    JoinStep(names, k, next);
    JoinGrows(names, next);
    assert names[..0] == [];
    if k == 0 { assert "" + names[0] == names[0]; } else { assert buf + ("/" + names[k]) == buf + "/" + names[k]; }
  }

  /** The joined names if the first is not empty and all fit, or nothing. */
  ghost function Rendered(names: seq<string>, buflen: nat): string {
    if names != [] && names[0] != "" && |Join(names)| < buflen then Join(names) else ""
  }

  /** Lines 1110-1126: write the components top down; give up on an empty name or a full buffer. */
  method Render(table: array<SnapNode>, chain: array<nat>, depth: nat, buflen: nat, ghost nodes: seq<SnapNode>)
    returns (buf: string)
    requires |nodes| <= table.Length && table[..|nodes|] == nodes
    requires depth <= chain.Length && Inside(chain[..depth], |nodes|)
    ensures buf == Rendered(ShownAll(nodes, chain[..depth]), buflen)
  {
    ghost var names := ShownAll(nodes, chain[..depth]);
    if depth > 0 { ShownAt(nodes, chain[..depth], 0); }
    buf := "";
    assert names[..0] == [];
    for k := 0 to depth
      invariant buf == Join(names[..k]) && (k == 0 <==> buf == "")
      invariant k > 0 ==> names[0] != "" && |buf| < buflen
    {
      var i := chain[depth - k - 1];
      assert i == chain[..depth][depth - k - 1];
      ShownAt(nodes, chain[..depth], depth - k - 1);
      var component := Component(table, i, buf == "", nodes);
      NextComponent(names, k, k + 1, buf, component);
      if |component| == 0 || |component| >= buflen - |buf| {
        return "";
      }
      buf := buf + component;
    }
    assert names[..depth] == names;
  }

  /** sysfs_iokit_path(). Without child lists the stored ordinals are what is shown. */
  method Path(snap: Snapshot, regid: nat, buflen: nat) returns (written: nat, buf: string)
    requires snap.Valid()
    ensures written == |buf|
    ensures regid == 0 || buflen == 0 || regid !in IndexMap(snap.value.base) ==> buf == ""
    ensures regid != 0 && buflen > 0 && regid in IndexMap(snap.value.base) ==>
              buf == PathAt(snap.value, IndexMap(snap.value.base)[regid], buflen)
  {
    if buflen == 0 || regid == 0 {
      return 0, "";
    }
    ghost var base := snap.value.base;
    ghost var t: Indexed := Tables(snap.value.nodes, snap.value.slots, base);
    var limit: nat := PATH_DEPTH;
    var chain, depth, start := ClimbUp(snap.nodes, snap.hash, regid, limit, t);
    ClimbInside(base, start, limit);
    buf := Render(snap.nodes, chain, depth, buflen, snap.value.nodes);
    written := |buf|;
  }

  /** The path of node i on a finished snapshot. */
  ghost function PathAt(v: Built, i: nat, buflen: nat): string {
    if i < |v.base| && v.base != [] then
      ClimbInside(v.base, i, PATH_DEPTH);
      Rendered(ShownAll(v.nodes, Climb(v.base, i, PATH_DEPTH)), buflen)
    else ""
  }

  /** On a snapshot with child lists it is the path of display names. */
  lemma PathAtIsPathOf(v: Built, i: nat, buflen: nat)
    requires i < |v.base| && !v.degraded
    ensures PathAt(v, i, buflen) == PathOf(v.base, i, buflen)
  {
    ShownAreComponents(v.nodes, v.base, i, PATH_DEPTH);
  }
}
