/**
 The open-addressing index of a registry snapshot (kext/sysfs_iokit.cpp:292-338): a
 linear-probing table from registry ids to node indices, proved to refine a map.
 */
module SnapshotIndex {
  /** SYSFS_IDX_NONE: the index of an empty slot, and the answer for an absent id. */
  const NONE: nat := 0xFFFF_FFFF

  const TWO_TO_THE_40: nat := 0x100_0000_0000
  const TWO_TO_THE_64: nat := 0x1_0000_0000_0000_0000

  datatype Slot = Slot(regid: nat, index: nat)

  /** 64-bit multiplication wraps; the shift keeps 24 bits, so the cast to 32 loses nothing. */
  function HashOf(regid: nat): nat {
    (regid * 0x9E37_79B9_7F4A_7C15) % TWO_TO_THE_64 / TWO_TO_THE_40
  }

  /** Masking with size - 1, size a power of two, is the remainder by size. */
  function Home(regid: nat, size: nat): (h: nat)
    requires size > 0
    ensures h < size
  {
    HashOf(regid) % size
  }

  /** The n-th probe position from `home`. */
  function At(home: nat, n: nat, size: nat): (h: nat)
    requires home < size && n < size
    ensures h < size
  {
    if home + n < size then home + n else home + n - size
  }

  predicate Empty(slot: Slot) {
    slot.index == NONE
  }

  /** Probing from `home` for `regid` meets, at step n, a slot that holds it, having met only other ids before. */
  ghost predicate FoundAt(slots: seq<Slot>, home: nat, regid: nat, n: nat) {
    n < |slots| && home < |slots| &&
    !Empty(slots[At(home, n, |slots|)]) && slots[At(home, n, |slots|)].regid == regid &&
    forall k: nat :: k < n ==> OtherAt(slots, home, regid, k)
  }

  ghost predicate OtherAt(slots: seq<Slot>, home: nat, regid: nat, k: nat) {
    k < |slots| && home < |slots| &&
    var slot := slots[At(home, k, |slots|)];
    !Empty(slot) && slot.regid != regid
  }

  function Occupied(slots: seq<Slot>): nat {
    if slots == [] then 0 else (if Empty(slots[0]) then 0 else 1) + Occupied(slots[1..])
  }

  ghost predicate Present(slots: seq<Slot>, home: nat, regid: nat) {
    exists n :: FoundAt(slots, home, regid, n)
  }

  ghost predicate StoresOnly(slots: seq<Slot>, m: map<nat, nat>) {
    forall j :: 0 <= j < |slots| && !Empty(slots[j]) ==> slots[j].regid in m && slots[j].index == m[slots[j].regid]
  }

  ghost predicate StoresAll(slots: seq<Slot>, m: map<nat, nat>)
    requires |slots| > 0
  {
    forall r :: r in m ==> m[r] != NONE && Present(slots, Home(r, |slots|), r)
  }

  /** The slots represent the map `m`: every key is found by probing from its home, and no other is stored. */
  ghost predicate Represents(slots: seq<Slot>, m: map<nat, nat>) {
    |slots| > 0 && StoresOnly(slots, m) && StoresAll(slots, m) && Occupied(slots) == |m|
  }

  /** Half-full at most means never full; the count of the occupied slots is the size of the map. */
  lemma OccupiedIsMapSize(slots: seq<Slot>, m: map<nat, nat>)
    requires Represents(slots, m)
    ensures Occupied(slots) == |m|
  {
  }

  lemma EmptyRepresents(slots: seq<Slot>)
    requires |slots| > 0 && forall j :: 0 <= j < |slots| ==> Empty(slots[j])
    ensures Represents(slots, map[])
  {
    OccupiedIsZero(slots);
  }

  // ---------- Counting

  lemma {:induction false} OccupiedUpdate(slots: seq<Slot>, j: nat, slot: Slot)
    requires j < |slots| && Empty(slots[j]) && !Empty(slot)
    ensures Occupied(slots[j := slot]) == Occupied(slots) + 1
  {
    if j == 0 {
      assert slots[j := slot][1..] == slots[1..];
    } else {
      assert slots[j := slot][1..] == slots[1..][j - 1 := slot];
      OccupiedUpdate(slots[1..], j - 1, slot);
    }
  }

  lemma {:induction false} OccupiedIsFull(slots: seq<Slot>)
    requires forall j :: 0 <= j < |slots| ==> !Empty(slots[j])
    ensures Occupied(slots) == |slots|
  {
    if slots != [] { OccupiedIsFull(slots[1..]); }
  }

  lemma {:induction false} OccupiedIsZero(slots: seq<Slot>)
    requires forall j :: 0 <= j < |slots| ==> Empty(slots[j])
    ensures Occupied(slots) == 0
  {
    if slots != [] { OccupiedIsZero(slots[1..]); }
  }

  lemma {:induction false} OccupiedAtMost(slots: seq<Slot>)
    ensures Occupied(slots) <= |slots|
  {
    if slots != [] { OccupiedAtMost(slots[1..]); }
  }

  lemma NotFull(slots: seq<Slot>, h: nat)
    requires h < |slots| && Empty(slots[h])
    ensures Occupied(slots) < |slots|
  {
    OccupiedUpdate(slots, h, Slot(0, 0));
    OccupiedAtMost(slots[h := Slot(0, 0)]);
  }

  // ---------- Probing

  lemma EveryPositionIsProbed(home: nat, j: nat, size: nat) returns (n: nat)
    requires home < size && j < size
    ensures n < size && At(home, n, size) == j
  {
    n := if j >= home then j - home else j - home + size;
  }

  /** A probe sequence that reaches an empty slot, or all slots, without meeting the id: the id is not there. */
  lemma ProbeMisses(slots: seq<Slot>, home: nat, regid: nat, n: nat)
    requires home < |slots| && n <= |slots|
    requires forall k: nat :: k < n ==> OtherAt(slots, home, regid, k)
    requires n < |slots| ==> Empty(slots[At(home, n, |slots|)])
    ensures forall n': nat :: !FoundAt(slots, home, regid, n')
  {
    forall n': nat ensures !FoundAt(slots, home, regid, n') {
      if n' < n {
        assert OtherAt(slots, home, regid, n');
      } else if n' > n && n < |slots| {
        assert !OtherAt(slots, home, regid, n);
      }
    }
  }

  /** sysfs_hash_find() on a non-null table: one probe sequence decides membership. */
  method Find(slots: array<Slot>, regid: nat, ghost m: map<nat, nat>) returns (index: nat)
    requires Represents(slots[..], m)
    ensures index == if regid in m then m[regid] else NONE
  {
    var h := Home(regid, slots.Length);
    ghost var home := h;
    var n := 0;
    while n < slots.Length
      invariant 0 <= n <= slots.Length && h < slots.Length
      invariant n < slots.Length ==> h == At(home, n, slots.Length)
      invariant forall k: nat :: k < n ==> OtherAt(slots[..], home, regid, k)
    {
      if slots[h].index == NONE {
        ProbeMisses(slots[..], home, regid, n);
        return NONE;
      }
      if slots[h].regid == regid {
        return slots[h].index;
      }
      h := if h + 1 == slots.Length then 0 else h + 1;
      n := n + 1;
    }
    ProbeMisses(slots[..], home, regid, n);
    return NONE;
  }

  /** Filling an empty slot for one id leaves every other id where it was found. */
  lemma PresentSurvives(slots: seq<Slot>, slots': seq<Slot>, h: nat, slot: Slot, home: nat, r: nat)
    requires h < |slots| && slots' == slots[h := slot]
    requires Empty(slots[h]) && !Empty(slot) && slot.regid != r && Present(slots, home, r)
    ensures Present(slots', home, r)
  {
    var n :| FoundAt(slots, home, r, n);
    forall k: nat | k < n ensures OtherAt(slots', home, r, k) { assert OtherAt(slots, home, r, k); }
    assert FoundAt(slots', home, r, n);
  }

  /** An id put into the empty slot that ends its probe sequence is found there. */
  lemma PresentWherePut(slots: seq<Slot>, slots': seq<Slot>, home: nat, slot: Slot, n: nat)
    requires home < |slots| && n < |slots| && slots' == slots[At(home, n, |slots|) := slot]
    requires Empty(slots[At(home, n, |slots|)]) && !Empty(slot)
    requires forall k: nat :: k < n ==> OtherAt(slots, home, slot.regid, k)
    ensures Present(slots', home, slot.regid)
  {
    forall k: nat | k < n ensures OtherAt(slots', home, slot.regid, k) { assert OtherAt(slots, home, slot.regid, k); }
    assert FoundAt(slots', home, slot.regid, n);
  }

  /** Filling an empty slot at the end of a probe sequence adds exactly that key to the map. */
  lemma FillRepresents(slots: seq<Slot>, slots': seq<Slot>, m: map<nat, nat>, slot: Slot, home: nat, n: nat)
    requires Represents(slots, m) && slot.regid !in m && !Empty(slot)
    requires home == Home(slot.regid, |slots|) && n < |slots| && Empty(slots[At(home, n, |slots|)])
    requires forall k: nat :: k < n ==> OtherAt(slots, home, slot.regid, k)
    requires slots' == slots[At(home, n, |slots|) := slot]
    ensures Represents(slots', m[slot.regid := slot.index])
  {
    var h, m' := At(home, n, |slots|), m[slot.regid := slot.index];
    OccupiedUpdate(slots, h, slot);
    PresentWherePut(slots, slots', home, slot, n);
    AllStillPresent(slots, slots', m, h, slot);
    StoresOnlyMore(slots, slots', m, h, slot);
    assert m'.Keys == m.Keys + {slot.regid};
    assert StoresAll(slots', m');
  }

  lemma StoresOnlyMore(slots: seq<Slot>, slots': seq<Slot>, m: map<nat, nat>, h: nat, slot: Slot)
    requires StoresOnly(slots, m) && slot.regid !in m && h < |slots| && slots' == slots[h := slot]
    ensures StoresOnly(slots', m[slot.regid := slot.index])
  {
  }

  lemma AllStillPresent(slots: seq<Slot>, slots': seq<Slot>, m: map<nat, nat>, h: nat, slot: Slot)
    requires |slots| > 0 && StoresAll(slots, m) && slot.regid !in m && h < |slots| && Empty(slots[h]) && !Empty(slot)
    requires slots' == slots[h := slot]
    ensures StoresAll(slots', m)
  {
    forall r | r in m ensures Present(slots', Home(r, |slots'|), r) {
      PresentSurvives(slots, slots', h, slot, Home(r, |slots|), r);
    }
  }

  /** sysfs_hash_insert(): the first binding of an id wins; an id is lost only when every slot is taken. */
  method Insert(slots: array<Slot>, regid: nat, index: nat, ghost m: map<nat, nat>)
    requires Represents(slots[..], m) && index != NONE
    modifies slots
    ensures regid in m || |m| == slots.Length ==> slots[..] == old(slots[..])
    ensures regid !in m && |m| < slots.Length ==> Represents(slots[..], m[regid := index])
  {
    var h := Home(regid, slots.Length);
    ghost var home := h;
    var n := 0;
    while n < slots.Length
      invariant 0 <= n <= slots.Length && h < slots.Length
      invariant n < slots.Length ==> h == At(home, n, slots.Length)
      invariant slots[..] == old(slots[..])
      invariant forall k: nat :: k < n ==> OtherAt(slots[..], home, regid, k)
    {
      if slots[h].index == NONE {
        ProbeMisses(slots[..], home, regid, n);
        FillRepresents(slots[..], slots[..][h := Slot(regid, index)], m, Slot(regid, index), home, n);
        NotFull(slots[..], h);
        slots[h] := Slot(regid, index);
        assert slots[..] == old(slots[..])[h := Slot(regid, index)];
        return;
      }
      if slots[h].index != NONE && slots[h].regid == regid {
        return;
      }
      h := if h + 1 == slots.Length then 0 else h + 1;
      n := n + 1;
    }
    forall j | 0 <= j < slots.Length ensures !Empty(slots[..][j]) {
      var k := EveryPositionIsProbed(home, j, slots.Length);
      assert OtherAt(slots[..], home, regid, k);
    }
    OccupiedIsFull(slots[..]);
  }
}
