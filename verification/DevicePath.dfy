/**
 Device paths (kext/sysfs_iokit.cpp:1082-1130) against the children they name: walking the
 rendered path down from the root comes back to the entry, exactly under the condition given.
 */
module DevicePath {
  import opened Wrappers
  import opened Names
  import opened Registry

  /** SYSFS_IOKIT_PATHDEPTH. */
  const PATH_DEPTH: nat := 64

  /** The name node i is presented under. */
  ghost function NodeDisplay(nodes: seq<SnapNode>, i: nat): string
    requires i < |nodes|
  {
    Display(nodes[i].name, Ordinal(nodes, i))
  }

  /** The first node of a list presented under `name`. */
  ghost function FirstNamed(nodes: seq<SnapNode>, list: seq<nat>, name: string): Option<nat>
    requires forall k :: 0 <= k < |list| ==> list[k] < |nodes|
  {
    if list == [] then None
    else if NodeDisplay(nodes, list[0]) == name then Some(list[0])
    else FirstNamed(nodes, list[1..], name)
  }

  /** What sysfs_iokit_child_named() answers. */
  ghost function ChildNamed(nodes: seq<SnapNode>, p: nat, name: string): (r: Option<nat>)
    ensures r.Some? ==> 1 <= r.value < |nodes| && Parents(nodes)[r.value] == p && NodeDisplay(nodes, r.value) == name
  {
    ChildrenInside(Parents(nodes), p, |nodes|);
    FirstNamedIsNamed(nodes, Children(nodes, p), name);
    FirstNamed(nodes, Children(nodes, p), name)
  }

  lemma {:induction false} FirstNamedIsNamed(nodes: seq<SnapNode>, list: seq<nat>, name: string)
    requires forall k :: 0 <= k < |list| ==> list[k] < |nodes|
    ensures FirstNamed(nodes, list, name).Some? ==>
              FirstNamed(nodes, list, name).value in list && FirstNamed(nodes, list, name).value < |nodes| &&
              NodeDisplay(nodes, FirstNamed(nodes, list, name).value) == name
  {
    if list != [] { FirstNamedIsNamed(nodes, list[1..], name); }
  }

  /** Following display names down the tree. */
  ghost function Resolve(nodes: seq<SnapNode>, p: nat, names: seq<string>): Option<nat> {
    if names == [] then Some(p)
    else
      var q := Resolve(nodes, p, names[..|names| - 1]);
      if q.None? then None else ChildNamed(nodes, q.value, names[|names| - 1])
  }

  /** The display names from the root's child down to node i, at most n of them: those nearest to i. */
  ghost function Components(nodes: seq<SnapNode>, i: nat, n: nat): seq<string>
    requires i < |nodes|
    decreases n
  {
    if i == 0 || n == 0 then []
    else
      ParentInside(nodes, i);
      Components(nodes, Parents(nodes)[i], n - 1) + [NodeDisplay(nodes, i)]
  }

  /** Climbing from node i arrives at the root within n steps. */
  ghost predicate Reaches(nodes: seq<SnapNode>, i: nat, n: nat)
    requires i < |nodes|
    decreases n
  {
    i == 0 || (n > 0 && (ParentInside(nodes, i); Reaches(nodes, Parents(nodes)[i], n - 1)))
  }

  /**
   An earlier sibling j takes the display name of node i: one of them is stored under the name the
   other is given by its suffix.
   */
  ghost predicate Hides(nodes: seq<SnapNode>, j: nat, i: nat)
    requires i < |nodes| && j < |nodes|
  {
    1 <= j < i && Parents(nodes)[j] == Parents(nodes)[i] &&
    var m, n := Ordinal(nodes, j), Ordinal(nodes, i);
    (m > 0 && n == 0 && nodes[i].name == Display(nodes[j].name, m)) ||
    (n > 0 && m == 0 && nodes[j].name == Display(nodes[i].name, n))
  }

  ghost predicate Hidden(nodes: seq<SnapNode>, i: nat)
    requires i < |nodes|
  {
    exists j: nat :: j < i && Hides(nodes, j, i)
  }

  /** No node on the way from i to the root has its display name taken by an earlier sibling. */
  ghost predicate Unshadowed(nodes: seq<SnapNode>, i: nat, n: nat)
    requires i < |nodes|
    decreases n
  {
    i == 0 || n == 0 || (ParentInside(nodes, i); !Hidden(nodes, i) && Unshadowed(nodes, Parents(nodes)[i], n - 1))
  }

  // ---------- Hiding, and what lookup by name makes of it

  /** Siblings share a display name just if the earlier hides the later. */
  lemma SharedIffHides(nodes: seq<SnapNode>, j: nat, i: nat)
    requires 1 <= j < i < |nodes| && Parents(nodes)[j] == Parents(nodes)[i]
    ensures NodeDisplay(nodes, j) == NodeDisplay(nodes, i) <==> Hides(nodes, j, i)
  {
    var m, n := Ordinal(nodes, j), Ordinal(nodes, i);
    if nodes[j].name == nodes[i].name {
      SameNameOrdinals(nodes, j, i);
      assert forall d :: d > 0 ==> |Display(nodes[i].name, d)| > |nodes[i].name|;
    }
    if m > 0 && n > 0 && NodeDisplay(nodes, j) == NodeDisplay(nodes, i) {
      SuffixUnique(nodes[j].name, m, nodes[i].name, n);
    }
  }

  /** Siblings of one name have different display names. */
  lemma SameNameOrdinals(nodes: seq<SnapNode>, j: nat, i: nat)
    requires 1 <= j < i < |nodes| && Parents(nodes)[j] == Parents(nodes)[i] && nodes[j].name == nodes[i].name
    ensures NodeDisplay(nodes, j) != NodeDisplay(nodes, i)
  {
    var p, par := Parents(nodes)[i], Parents(nodes);
    var a := ChildRank(par, p, |nodes|, j);
    var b := ChildRank(par, p, |nodes|, i);
    ChildrenBelowIs(par, p, |nodes|);
    RanksApart(nodes, p, a, b);
  }

  lemma RanksApart(nodes: seq<SnapNode>, p: nat, a: nat, b: nat)
    requires a < b < |Children(nodes, p)|
    requires Children(nodes, p)[a] < |nodes| && Children(nodes, p)[b] < |nodes|
    requires nodes[Children(nodes, p)[a]].name == nodes[Children(nodes, p)[b]].name
    ensures NodeDisplay(nodes, Children(nodes, p)[a]) != NodeDisplay(nodes, Children(nodes, p)[b])
  {
    ChildrenInside(Parents(nodes), p, |nodes|);
    DisplayInList(nodes, p, a);
    DisplayInList(nodes, p, b);
    NamesOfAt(nodes, Children(nodes, p), a);
    NamesOfAt(nodes, Children(nodes, p), b);
    SameNameApart(SiblingNames(nodes, p), a, b);
  }

  /** What is found under a name is no later than any child of that name. */
  lemma {:induction false} FirstNamedIsEarly(nodes: seq<SnapNode>, list: seq<nat>, k: nat, name: string)
    requires forall j :: 0 <= j < |list| ==> list[j] < |nodes|
    requires k < |list| && NodeDisplay(nodes, list[k]) == name
    requires forall i, j :: 0 <= i < j < |list| ==> list[i] < list[j]
    ensures FirstNamed(nodes, list, name).Some? && FirstNamed(nodes, list, name).value <= list[k]
  {
    if NodeDisplay(nodes, list[0]) != name { FirstNamedIsEarly(nodes, list[1..], k - 1, name); }
  }

  /** Looking node i up by its display name finds it just if no earlier sibling hides it. */
  lemma FoundIffNotHidden(nodes: seq<SnapNode>, i: nat)
    requires 1 <= i < |nodes|
    ensures ChildNamed(nodes, Parents(nodes)[i], NodeDisplay(nodes, i)) == Some(i) <==> !Hidden(nodes, i)
  {
    var p, par := Parents(nodes)[i], Parents(nodes);
    var kids := Children(nodes, p);
    var b := ChildRank(par, p, |nodes|, i);
    ChildrenBelowIs(par, p, |nodes|);
    ChildrenInside(par, p, |nodes|);
    if Hidden(nodes, i) {
      var j: nat :| j < i && Hides(nodes, j, i);
      SharedIffHides(nodes, j, i);
      var a := ChildRank(par, p, |nodes|, j);
      FirstNamedIsEarly(nodes, kids, a, NodeDisplay(nodes, i));
    } else {
      forall k | 0 <= k < b ensures NodeDisplay(nodes, kids[k]) != NodeDisplay(nodes, i) {
        SharedIffHides(nodes, kids[k], i);
      }
      FirstNamedIsFirst(nodes, kids, b);
    }
  }

  lemma ResolveLast(nodes: seq<SnapNode>, p: nat, names: seq<string>, name: string)
    ensures Resolve(nodes, p, names + [name]) ==
            var q := Resolve(nodes, p, names); if q.None? then None else ChildNamed(nodes, q.value, name)
  {
    assert (names + [name])[..|names|] == names;
  }

  /** The last step leads to i just if it starts at its parent and no sibling hides i. */
  lemma LastStep(nodes: seq<SnapNode>, i: nat, above: seq<string>, p: nat)
    requires 1 <= i < |nodes| && p == Parents(nodes)[i]
    ensures Resolve(nodes, 0, above + [NodeDisplay(nodes, i)]) == Some(i) <==>
            Resolve(nodes, 0, above) == Some(p) && !Hidden(nodes, i)
  {
    ResolveLast(nodes, 0, above, NodeDisplay(nodes, i));
    FoundIffNotHidden(nodes, i);
  }

  /** The names collected on the way up lead back down exactly when the way is short enough and unshadowed. */
  lemma {:induction false} ComponentsResolveBack(nodes: seq<SnapNode>, i: nat, n: nat)
    requires i < |nodes|
    ensures Resolve(nodes, 0, Components(nodes, i, n)) == Some(i) <==> Reaches(nodes, i, n) && Unshadowed(nodes, i, n)
    decreases n
  {
    if i != 0 && n > 0 {
      ParentInside(nodes, i);
      var p := Parents(nodes)[i];
      ComponentsResolveBack(nodes, p, n - 1);
      LastStep(nodes, i, Components(nodes, p, n - 1), p);
    }
  }

  lemma NotShadowed(nodes: seq<SnapNode>, p: nat, i: nat)
    requires 1 <= i < |nodes| && Parents(nodes)[i] == p && !Collides(SiblingNames(nodes, p))
    ensures !Hidden(nodes, i)
  {
    ChildNamedInverts(nodes, p);
    var k := ChildRank(Parents(nodes), p, |nodes|, i);
    assert InvertedAt(nodes, p, k);
    FoundIffNotHidden(nodes, i);
  }

  ghost predicate CollisionFree(nodes: seq<SnapNode>) {
    forall p: nat {:trigger SiblingNames(nodes, p)} :: p < |nodes| ==> !Collides(SiblingNames(nodes, p))
  }

  /** Where sibling names do not collide, nothing is shadowed. */
  lemma {:induction false} NoCollisionNoShadow(nodes: seq<SnapNode>, i: nat, n: nat)
    requires i < |nodes| && CollisionFree(nodes)
    ensures Unshadowed(nodes, i, n)
    decreases n
  {
    if i != 0 && n > 0 {
      ParentInside(nodes, i);
      var p := Parents(nodes)[i];
      assert !Collides(SiblingNames(nodes, p));
      NotShadowed(nodes, p, i);
      NoCollisionNoShadow(nodes, p, n - 1);
    }
  }

  ghost predicate InvertedAt(nodes: seq<SnapNode>, p: nat, k: nat) {
    k < |Children(nodes, p)| && Children(nodes, p)[k] < |nodes| &&
    ChildNamed(nodes, p, NodeDisplay(nodes, Children(nodes, p)[k])) == Some(Children(nodes, p)[k])
  }

  lemma DisplayInList(nodes: seq<SnapNode>, p: nat, k: nat)
    requires k < |Children(nodes, p)|
    ensures Children(nodes, p)[k] < |nodes|
    ensures NodeDisplay(nodes, Children(nodes, p)[k]) == DisplayAt(SiblingNames(nodes, p), k)
  {
    OrdinalInList(nodes, p, k);
    ChildrenInside(Parents(nodes), p, |nodes|);
    NamesOfAt(nodes, Children(nodes, p), k);
  }

  lemma {:induction false} FirstNamedIsFirst(nodes: seq<SnapNode>, list: seq<nat>, k: nat)
    requires forall j :: 0 <= j < |list| ==> list[j] < |nodes|
    requires k < |list| && forall j :: 0 <= j < k ==> NodeDisplay(nodes, list[j]) != NodeDisplay(nodes, list[k])
    ensures FirstNamed(nodes, list, NodeDisplay(nodes, list[k])) == Some(list[k])
  {
    if k > 0 { FirstNamedIsFirst(nodes, list[1..], k - 1); }
  }

  lemma DistinctInverts(nodes: seq<SnapNode>, p: nat, k: nat)
    requires Distinct(SiblingNames(nodes, p)) && k < |Children(nodes, p)|
    ensures InvertedAt(nodes, p, k)
  {
    var names, kids := SiblingNames(nodes, p), Children(nodes, p);
    ChildrenInside(Parents(nodes), p, |nodes|);
    DisplayInList(nodes, p, k);
    forall j | 0 <= j < k ensures NodeDisplay(nodes, kids[j]) != NodeDisplay(nodes, kids[k]) {
      DisplayInList(nodes, p, j);
      assert DisplayAt(names, j) != DisplayAt(names, k);
    }
    FirstNamedIsFirst(nodes, kids, k);
  }

  lemma SharedNotInverted(nodes: seq<SnapNode>, p: nat, i: nat, j: nat)
    requires i < j < |Children(nodes, p)|
    requires DisplayAt(SiblingNames(nodes, p), i) == DisplayAt(SiblingNames(nodes, p), j)
    ensures !(InvertedAt(nodes, p, i) && InvertedAt(nodes, p, j))
  {
    DisplayInList(nodes, p, i);
    DisplayInList(nodes, p, j);
    ChildrenBelowIs(Parents(nodes), p, |nodes|);
  }

  /**
   Looking a child up by the name it is listed under finds that child, for all children, exactly when
   names do not collide.
   */
  lemma ChildNamedInverts(nodes: seq<SnapNode>, p: nat)
    ensures (forall k: nat :: k < |Children(nodes, p)| ==> InvertedAt(nodes, p, k)) <==>
            !Collides(SiblingNames(nodes, p))
  {
    var names := SiblingNames(nodes, p);
    DistinctIffNoCollision(names);
    if Distinct(names) {
      forall k: nat | k < |Children(nodes, p)| ensures InvertedAt(nodes, p, k) { DistinctInverts(nodes, p, k); }
    } else {
      var i, j :| 0 <= i < j < |names| && DisplayAt(names, i) == DisplayAt(names, j);
      SharedNotInverted(nodes, p, i, j);
    }
  }

  /** The k-th entry of a chain: all are called "x", each hangs below the one before it. */
  function DeepEntry(k: nat): Entry
    requires k >= 1
  {
    Entry(k, k - 1, Some("x"), CLASS_NONE, None, false)
  }

  /** A registry that is a chain of n entries. */
  function DeepWalk(n: nat): (walk: seq<Entry>)
    ensures |walk| == n
  {
    if n == 0 then [] else DeepWalk(n - 1) + [DeepEntry(n)]
  }

  lemma {:induction false} DeepWalkAt(n: nat, k: nat)
    requires k < n
    ensures DeepWalk(n)[k] == DeepEntry(k + 1)
  {
    if k < n - 1 { DeepWalkAt(n - 1, k); }
  }

  /** Every entry of the chain is recorded, at its own number. */
  lemma {:induction false} DeepTable(n: nat, k: nat)
    requires k <= n
    ensures var table := TableAfter(DeepWalk(n), k);
            |table| == k + 1 && forall j :: 1 <= j <= k ==> table[j] == NodeOf(DeepEntry(j))
  {
    if k > 0 {
      DeepTable(n, k - 1);
      DeepWalkAt(n, k - 1);
      forall i: nat | i < k - 1 ensures DeepWalk(n)[i].regid != k { DeepWalkAt(n, i); }
      assert IsFirst(DeepWalk(n), k - 1);
    }
  }

  /** What a snapshot of the chain holds, if it fits. */
  lemma DeepRecorded(n: nat)
    requires n < MAX_NODES
    ensures var table := Recorded(DeepWalk(n), MAX_NODES);
            DistinctIds(table) && |table| == n + 1 && table[0] == ROOT &&
            forall j :: 1 <= j <= n ==> table[j] == NodeOf(DeepEntry(j))
  {
    DeepTable(n, n);
    RecordedDistinct(DeepWalk(n), MAX_NODES);
  }

  lemma DeepParent(nodes: seq<SnapNode>, i: nat)
    requires DistinctIds(nodes) && 1 <= i < |nodes| && nodes[i].parentRegid == nodes[i - 1].regid
    ensures Parents(nodes)[i] == i - 1
  {
    IndexMapInverts(nodes, i - 1);
    ParentsAt(nodes, |nodes|, i);
  }

  lemma {:induction false} DeepReaches(n: nat, nodes: seq<SnapNode>, i: nat, steps: nat)
    requires DistinctIds(nodes) && |nodes| == n + 1 && forall j :: 1 <= j <= n ==> nodes[j] == NodeOf(DeepEntry(j))
    requires i <= n
    ensures Reaches(nodes, i, steps) <==> i <= steps
    decreases steps
  {
    if i > 0 && steps > 0 {
      assert nodes[i].parentRegid == nodes[i - 1].regid;
      DeepParent(nodes, i);
      DeepReaches(n, nodes, i - 1, steps - 1);
    }
  }

  /** In a chain no entry has a sibling. */
  lemma {:induction false} DeepUnshadowed(n: nat, nodes: seq<SnapNode>, i: nat, steps: nat)
    requires DistinctIds(nodes) && |nodes| == n + 1 && nodes[0].regid == 0
    requires forall j :: 1 <= j <= n ==> nodes[j] == NodeOf(DeepEntry(j))
    requires i <= n
    ensures Unshadowed(nodes, i, steps)
    decreases steps
  {
    if i > 0 && steps > 0 {
      forall j: nat | 1 <= j <= i ensures Parents(nodes)[j] == j - 1 {
        assert nodes[j].parentRegid == nodes[j - 1].regid;
        DeepParent(nodes, j);
      }
      DeepUnshadowed(n, nodes, i - 1, steps - 1);
    }
  }

  /** The last entry of a chain that fits is recorded; its path leads to it just if the chain has at most 64 entries. */
  lemma DeepPathIsLost(n: nat)
    requires n < 16384
    ensures var table := Recorded(DeepWalk(n), 16384);
            && n < |table| && table[n].regid == n
            && (Resolve(table, 0, Components(table, n, PATH_DEPTH)) == Some(n) <==> n <= 64)
  {
    DeepRecorded(n);
    var table := Recorded(DeepWalk(n), MAX_NODES);
    DeepReaches(n, table, n, PATH_DEPTH);
    DeepUnshadowed(n, table, n, PATH_DEPTH);
    ComponentsResolveBack(table, n, PATH_DEPTH);
  }

  // ---------- Paths as strings

  function Join(names: seq<string>): string {
    if names == [] then ""
    else if |names| == 1 then names[0]
    else Join(names[..|names| - 1]) + "/" + names[|names| - 1]
  }

  /** The components of a path, cut at every slash. */
  function Split(path: string): (names: seq<string>)
    ensures |names| > 0
  {
    if path == "" then [""]
    else
      var before := Split(path[..|path| - 1]);
      var c := path[|path| - 1];
      if c == '/' then before + [""] else before[..|before| - 1] + [before[|before| - 1] + [c]]
  }

  ghost predicate SlashFree(name: string) {
    forall i :: 0 <= i < |name| ==> name[i] != '/'
  }

  lemma {:induction false} SplitWord(path: string, word: string)
    requires SlashFree(word)
    ensures var before := Split(path); Split(path + word) == before[..|before| - 1] + [before[|before| - 1] + word]
  {
    var before := Split(path);
    if word == "" {
      assert path + word == path && before[|before| - 1] + word == before[|before| - 1];
    } else {
      var w, c := word[..|word| - 1], word[|word| - 1];
      SplitWord(path, w);
      assert path + word == path + w + [c] && (path + word)[..|path + word| - 1] == path + w;
      assert before[|before| - 1] + word == before[|before| - 1] + w + [c];
    }
  }

  /** A slash and a word open a new component. */
  lemma SplitNext(path: string, word: string)
    requires SlashFree(word)
    ensures Split(path + "/" + word) == Split(path) + [word]
  {
    var longer := path + "/";
    assert longer[..|longer| - 1] == path && longer[|longer| - 1] == '/';
    SplitWord(longer, word);
    var names := Split(path);
    assert (names + [""])[..|names|] == names && "" + word == word;
  }

  lemma {:induction false} SplitSingle(word: string)
    requires SlashFree(word)
    ensures Split(word) == [word]
  {
    if word != "" {
      SplitSingle(word[..|word| - 1]);
      assert word[..|word| - 1] + [word[|word| - 1]] == word;
    }
  }

  /** Cutting a joined path gives back the names, whatever they are, as long as none contains a slash. */
  lemma {:induction false} SplitJoin(names: seq<string>)
    requires names != [] && forall k :: 0 <= k < |names| ==> SlashFree(names[k])
    ensures Split(Join(names)) == names
  {
    var last := |names| - 1;
    if last == 0 {
      SplitSingle(names[0]);
      assert names == [names[0]];
    } else {
      SplitJoin(names[..last]);
      SplitNext(Join(names[..last]), names[last]);
      assert names == names[..last] + [names[last]];
    }
  }

  lemma {:induction false} ComponentsSlashFree(nodes: seq<SnapNode>, i: nat, n: nat)
    requires i < |nodes| && forall k :: 0 <= k < |nodes| ==> SlashFree(nodes[k].name)
    ensures forall k :: 0 <= k < |Components(nodes, i, n)| ==> SlashFree(Components(nodes, i, n)[k])
    decreases n
  {
    if i != 0 && n > 0 {
      ParentInside(nodes, i);
      ComponentsSlashFree(nodes, Parents(nodes)[i], n - 1);
    }
  }

  /**
   What is written for node i, climbing at most `limit` levels, into a buffer of the given size: a
   whole path or nothing.
   */
  ghost function PathWithin(nodes: seq<SnapNode>, i: nat, limit: nat, buflen: nat): string
    requires i < |nodes|
  {
    var names := Components(nodes, i, limit);
    if names != [] && names[0] != "" && |Join(names)| < buflen then Join(names) else ""
  }

  /** What sysfs_iokit_path() writes. */
  ghost function PathOf(nodes: seq<SnapNode>, i: nat, buflen: nat): string
    requires i < |nodes|
  {
    PathWithin(nodes, i, PATH_DEPTH, buflen)
  }

  /** A rendered path, cut at its slashes and walked from the root, finds the entry again exactly when it should. */
  lemma PathRoundTrip(nodes: seq<SnapNode>, i: nat, buflen: nat)
    requires i < |nodes| && forall k :: 0 <= k < |nodes| ==> SlashFree(nodes[k].name)
    requires PathOf(nodes, i, buflen) != ""
    ensures Resolve(nodes, 0, Split(PathOf(nodes, i, buflen))) == Some(i) <==>
            Reaches(nodes, i, PATH_DEPTH) && Unshadowed(nodes, i, PATH_DEPTH)
  {
    ComponentsSlashFree(nodes, i, PATH_DEPTH);
    SplitJoin(Components(nodes, i, PATH_DEPTH));
    ComponentsResolveBack(nodes, i, PATH_DEPTH);
  }

  // ---------- The climb

  /** The nodes met climbing from node i, at most n of them. */
  ghost function Climb(nodes: seq<SnapNode>, i: nat, n: nat): (chain: seq<nat>)
    requires i < |nodes|
    ensures |chain| <= n && forall k :: 0 <= k < |chain| ==> 1 <= chain[k] < |nodes|
    decreases n
  {
    if i == 0 || n == 0 then []
    else
      ParentInside(nodes, i);
      [i] + Climb(nodes, Parents(nodes)[i], n - 1)
  }

  lemma {:induction false} JoinGrows(names: seq<string>, k: nat)
    requires 1 <= k <= |names|
    ensures |Join(names[..k])| <= |Join(names)|
    decreases |names|
  {
    if k == |names| {
      assert names[..k] == names;
    } else {
      JoinGrows(names[..|names| - 1], k);
      assert names[..|names| - 1][..k] == names[..k];
    }
  }

  /** Adding one component: no separator before the first, one before every other. */
  lemma JoinStep(names: seq<string>, k: nat, next: nat)
    requires k < |names| && next == k + 1
    ensures Join(names[..next]) == if k == 0 then names[0] else Join(names[..k]) + "/" + names[k]
  {
    assert names[..next][..k] == names[..k];
  }
}
