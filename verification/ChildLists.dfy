/**
 Compressed child lists: a counting sort of the nodes 1..n-1 by parent. The children of
 p occupy the range that starts after all children of smaller parents.
 */
module ChildLists {
  import opened Registry

  /** How many of the nodes 1..n-1 have parent p. */
  ghost function Count(par: seq<nat>, p: nat, n: nat): nat
    requires n <= |par|
  {
    if n <= 1 then 0 else Count(par, p, n - 1) + if par[n - 1] == p then 1 else 0
  }

  /** Where the range of p starts: after the children of all smaller parents. */
  ghost function Offset(par: seq<nat>, p: nat, n: nat): nat
    requires n <= |par|
  {
    if p == 0 then 0 else Offset(par, p - 1, n) + Count(par, p - 1, n)
  }

  /** Where node x belongs: in its parent's range, after its earlier siblings. */
  ghost function Position(par: seq<nat>, x: nat, n: nat): nat
    requires x < n <= |par|
  {
    Offset(par, par[x], n) + Count(par, par[x], x)
  }

  // ---------- Ranges

  lemma {:induction false} OffsetStep(par: seq<nat>, p: nat, n: nat)
    requires 1 <= n < |par|
    ensures Offset(par, p, n + 1) == Offset(par, p, n) + if par[n] < p then 1 else 0
  {
    if p > 0 { OffsetStep(par, p - 1, n); }
  }

  lemma {:induction false} OffsetOfNone(par: seq<nat>, p: nat)
    requires 1 <= |par|
    ensures Offset(par, p, 1) == 0
  {
    if p > 0 { OffsetOfNone(par, p - 1); }
  }

  /** All the ranges together hold every node but the root. */
  lemma {:induction false} OffsetTotal(par: seq<nat>, p: nat, n: nat)
    requires 1 <= n <= |par| && forall i :: 1 <= i < n ==> par[i] < p
    ensures Offset(par, p, n) == n - 1
  {
    if n == 1 {
      OffsetOfNone(par, p);
    } else {
      OffsetTotal(par, p, n - 1);
      OffsetStep(par, p, n - 1);
    }
  }

  lemma {:induction false} OffsetMonotone(par: seq<nat>, p: nat, q: nat, n: nat)
    requires p <= q && n <= |par|
    ensures Offset(par, p, n) <= Offset(par, q, n)
    decreases q
  {
    if p < q { OffsetMonotone(par, p, q - 1, n); }
  }

  lemma {:induction false} CountMonotone(par: seq<nat>, p: nat, i: nat, n: nat)
    requires i <= n <= |par|
    ensures Count(par, p, i) <= Count(par, p, n)
    decreases n
  {
    if i < n { CountMonotone(par, p, i, n - 1); }
  }

  /** A node's rank among its siblings lies below their number. */
  lemma RankInside(par: seq<nat>, x: nat, n: nat)
    requires 1 <= x < n <= |par|
    ensures Count(par, par[x], x) < Count(par, par[x], n)
  {
    var next := x + 1;
    assert Count(par, par[x], next) == Count(par, par[x], x) + 1;
    CountMonotone(par, par[x], next, n);
  }

  /** Every node's position lies inside the child array. */
  lemma PositionInside(par: seq<nat>, x: nat, n: nat)
    requires 1 <= x < n <= |par| && forall i :: 1 <= i < n ==> par[i] < n
    ensures Position(par, x, n) < n - 1
  {
    RankInside(par, x, n);
    OffsetMonotone(par, par[x] + 1, n, n);
    OffsetTotal(par, n, n);
  }

  /** No two nodes share a position: ranges are disjoint, and siblings have different ranks. */
  lemma PositionInjective(par: seq<nat>, x: nat, y: nat, n: nat)
    requires 1 <= x < y < n <= |par|
    ensures Position(par, x, n) != Position(par, y, n)
  {
    RankInside(par, x, n);
    RankInside(par, y, n);
    if par[x] == par[y] {
      RankInside(par, x, y);
    } else if par[x] < par[y] {
      OffsetMonotone(par, par[x] + 1, par[y], n);
    } else {
      OffsetMonotone(par, par[y] + 1, par[x], n);
    }
  }

  // ---------- Filling

  ghost predicate PlacedAt(childIdx: seq<nat>, par: seq<nat>, x: nat, n: nat)
    requires x < n <= |par|
  {
    Position(par, x, n) < |childIdx| && childIdx[Position(par, x, n)] == x
  }

  /** The nodes below i stand where they belong. */
  ghost predicate Placed(childIdx: seq<nat>, par: seq<nat>, i: nat, n: nat)
    requires i <= n <= |par|
  {
    forall x: nat :: 1 <= x < i ==> PlacedAt(childIdx, par, x, n)
  }

  lemma PlaceOne(childIdx: seq<nat>, childIdx': seq<nat>, par: seq<nat>, i: nat, next: nat, n: nat)
    requires 1 <= i < n <= |par| && next == i + 1 && Placed(childIdx, par, i, n)
    requires Position(par, i, n) < |childIdx| && childIdx' == childIdx[Position(par, i, n) := i]
    ensures Placed(childIdx', par, next, n)
  {
    forall x: nat | 1 <= x < next ensures PlacedAt(childIdx', par, x, n) {
      if x < i {
        assert PlacedAt(childIdx, par, x, n);
        PositionInjective(par, x, i, n);
      }
    }
  }

  // ---------- What the filled array says

  lemma {:induction false} CountIsLength(par: seq<nat>, p: nat, n: nat)
    requires n <= |par|
    ensures |ChildrenBelow(par, p, n)| == Count(par, p, n)
  {
    if n > 1 { CountIsLength(par, p, n - 1); }
  }

  /** The k-th child of p has rank k. */
  lemma {:induction false} RankOfChild(par: seq<nat>, p: nat, n: nat, k: nat)
    requires n <= |par| && k < |ChildrenBelow(par, p, n)|
    ensures var x := ChildrenBelow(par, p, n)[k]; 1 <= x < n && par[x] == p && Count(par, p, x) == k
  {
    if k < |ChildrenBelow(par, p, n - 1)| {
      RankOfChild(par, p, n - 1, k);
    } else {
      CountIsLength(par, p, n - 1);
    }
  }

  ghost predicate HoldsAt(s: seq<nat>, off: nat, k: nat, x: nat) {
    off + k < |s| && s[off + k] == x
  }

  lemma SliceIs(s: seq<nat>, off: nat, list: seq<nat>)
    requires off + |list| <= |s| && forall k: nat :: k < |list| ==> HoldsAt(s, off, k, list[k])
    ensures s[off..off + |list|] == list
  {
    forall k | 0 <= k < |list| ensures s[off..off + |list|][k] == list[k] { assert HoldsAt(s, off, k, list[k]); }
  }

  lemma ChildStands(childIdx: seq<nat>, par: seq<nat>, p: nat, n: nat, off: nat, k: nat, x: nat)
    requires n <= |par| && Placed(childIdx, par, n, n) && off == Offset(par, p, n)
    requires k < |ChildrenBelow(par, p, n)| && x == ChildrenBelow(par, p, n)[k]
    ensures HoldsAt(childIdx, off, k, x)
  {
    RankOfChild(par, p, n, k);
    assert PlacedAt(childIdx, par, x, n);
  }

  lemma RangeEnds(par: seq<nat>, p: nat, n: nat)
    requires 1 <= n <= |par| && p < n && forall i :: 1 <= i < n ==> par[i] < n
    ensures Offset(par, p, n) + |ChildrenBelow(par, p, n)| <= n - 1
  {
    CountIsLength(par, p, n);
    OffsetMonotone(par, p + 1, n, n);
    OffsetTotal(par, n, n);
  }

  /** Once all nodes are placed, the range of p lists exactly the children of p, in table order. */
  lemma RangeIsChildren(childIdx: seq<nat>, par: seq<nat>, p: nat, n: nat, off: nat, kids: seq<nat>)
    requires 1 <= n <= |par| && n - 1 <= |childIdx| && Placed(childIdx, par, n, n)
    requires p < n && forall i :: 1 <= i < n ==> par[i] < n
    requires off == Offset(par, p, n) && kids == ChildrenBelow(par, p, n)
    ensures |kids| == Count(par, p, n) && off + |kids| <= n - 1 && childIdx[off..off + |kids|] == kids
  {
    RangeEnds(par, p, n);
    CountIsLength(par, p, n);
    forall k: nat | k < |kids| ensures HoldsAt(childIdx, off, k, kids[k]) {
      ChildStands(childIdx, par, p, n, off, k, kids[k]);
    }
    SliceIs(childIdx, off, kids);
  }

  /** Every position below the end of the last range belongs to some parent's range. */
  lemma {:induction false} RangesCover(par: seq<nat>, q: nat, n: nat, pos: nat) returns (p: nat)
    requires n <= |par| && pos < Offset(par, q, n)
    ensures p < q && Offset(par, p, n) <= pos < Offset(par, p, n) + Count(par, p, n)
    decreases q
  {
    if Offset(par, q - 1, n) <= pos { p := q - 1; } else { p := RangesCover(par, q - 1, n, pos); }
  }

  /**
   The filled array is a permutation of the nodes 1..n-1: each position holds one of them, and `x`, the
   node at `pos`, is at no other position.
   */
  lemma ArrayIsPermutation(childIdx: seq<nat>, par: seq<nat>, n: nat, pos: nat) returns (x: nat)
    requires 1 <= n <= |par| && n - 1 <= |childIdx| && Placed(childIdx, par, n, n)
    requires pos < n - 1 && forall i :: 1 <= i < n ==> par[i] < n
    ensures 1 <= x < n && childIdx[pos] == x && Position(par, x, n) == pos
  {
    OffsetTotal(par, n, n);
    var p := RangesCover(par, n, n, pos);
    CountIsLength(par, p, n);
    RankOfChild(par, p, n, pos - Offset(par, p, n));
    x := ChildrenBelow(par, p, n)[pos - Offset(par, p, n)];
    assert PlacedAt(childIdx, par, x, n);
  }

  /** So no node occurs twice, and none is missing. */
  lemma ArrayIsBijection(childIdx: seq<nat>, par: seq<nat>, n: nat)
    requires 1 <= n <= |par| && n - 1 <= |childIdx| && Placed(childIdx, par, n, n)
    requires forall i :: 1 <= i < n ==> par[i] < n
    ensures forall a, b :: 0 <= a < b < n - 1 ==> childIdx[a] != childIdx[b]
    ensures forall x: nat :: 1 <= x < n ==> Position(par, x, n) < n - 1 && childIdx[Position(par, x, n)] == x
  {
    forall a, b | 0 <= a < b < n - 1 ensures childIdx[a] != childIdx[b] {
      var x := ArrayIsPermutation(childIdx, par, n, a);
      var y := ArrayIsPermutation(childIdx, par, n, b);
    }
    forall x: nat | 1 <= x < n ensures Position(par, x, n) < n - 1 && childIdx[Position(par, x, n)] == x {
      PositionInside(par, x, n);
      assert PlacedAt(childIdx, par, x, n);
    }
  }
}
