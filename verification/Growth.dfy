/**
 How a snapshot is sized (kext/sysfs_iokit.cpp:344-357, :481-494, :594-604), and what builds of
 these sizes record.
 */
module Growth {
  import opened Registry

  /** Lines 481-488: a quarter and 64 more than the estimate, and the root, up to the cap. */
  function Capacity(estimate: nat): (cap: nat)
    ensures 1 <= cap <= MAX_NODES
    ensures estimate < MAX_NODES ==> cap > estimate
  {
    var cap := estimate + (estimate / 4 + 64) + 1;
    if cap > MAX_NODES then MAX_NODES else cap
  }

  predicate IsPowerOfTwo(n: nat) {
    n == 1 || (n > 1 && n % 2 == 0 && IsPowerOfTwo(n / 2))
  }

  lemma DoubledPower(n: nat)
    requires IsPowerOfTwo(n)
    ensures IsPowerOfTwo(n * 2)
  {
    assert n * 2 / 2 == n && n * 2 % 2 == 0;
  }

  /** Lines 491-494: the smallest power of two from 16 that is at least twice the capacity. */
  method HashSize(cap: nat) returns (size: nat)
    ensures size >= 16 && 2 * cap <= size && IsPowerOfTwo(size)
    ensures size == 16 || size / 2 < 2 * cap
  {
    size := 16;
    assert IsPowerOfTwo(1) && IsPowerOfTwo(2) && IsPowerOfTwo(4) && IsPowerOfTwo(8);
    while size < cap * 2
      invariant size >= 16 && IsPowerOfTwo(size)
      invariant size == 16 || size / 2 < 2 * cap
      decreases cap * 4 - size
    {
      DoubledPower(size);
      size := size * 2;
    }
  }

  /** Lines 481-483: the last node count, or on the very first build the number of entries, counted up to the cap. */
  function Estimate(lastCount: nat, entries: nat): nat {
    if lastCount != 0 then lastCount else if entries < MAX_NODES then entries else MAX_NODES
  }

  /** The sizes in numbers: a quarter more than what was counted, and 65, but at most 16384. */
  lemma SizeInNumbers(lastCount: nat, entries: nat)
    ensures var n := if lastCount > 0 then lastCount else if entries > 16384 then 16384 else entries;
            Capacity(Estimate(lastCount, entries)) == if n + n / 4 + 65 > 16384 then 16384 else n + n / 4 + 65
  {
  }

  lemma {:induction false} TableBound(walk: seq<Entry>, k: nat)
    requires k <= |walk|
    ensures |TableAfter(walk, k)| <= k + 1
  {
    if k > 0 { TableBound(walk, k - 1); }
  }

  /** Any capacity that is the cap, or has room for the root and every entry, records as much as can be. */
  lemma RoomyRecordsAll(walk: seq<Entry>, cap: nat)
    requires cap <= 16384 && (cap > |walk| || cap == 16384)
    ensures Recorded(walk, cap) == if |AllNodes(walk)| <= 16384 then AllNodes(walk) else AllNodes(walk)[..16384]
  {
    TableBound(walk, |walk|);
  }

  /** A first build counts the registry, so it has room for all of it, up to the cap. */
  lemma FirstBuildIsRoomy(walk: seq<Entry>)
    ensures var cap := Capacity(Estimate(0, |walk|)); cap <= 16384 && (cap > |walk| || cap == 16384)
  {
  }

  /** What the k-th build after one of capacity `cap` records, each sized from the one before it. */
  ghost function Later(walk: seq<Entry>, cap: nat, k: nat): seq<SnapNode>
    decreases k
  {
    if k == 0 then Recorded(walk, cap) else Recorded(walk, Capacity(|Later(walk, cap, k - 1)|))
  }

  /** As long as builds are truncated, each is larger than the one before it by 65 nodes or more. */
  lemma {:induction false} LaterGrows(walk: seq<Entry>, cap: nat, k: nat)
    requires cap >= 1 && |AllNodes(walk)| <= MAX_NODES
    ensures Later(walk, cap, k) == AllNodes(walk) || |Later(walk, cap, k)| >= cap + 65 * k
  {
    if k > 0 { LaterGrows(walk, cap, k - 1); }
  }

  /** A registry that fits the cap is recorded whole by the 253rd build after any other at the latest. */
  lemma CompleteInTheEnd(walk: seq<Entry>, cap: nat, k: nat)
    requires cap >= 1 && |AllNodes(walk)| <= MAX_NODES && cap + 65 * k >= MAX_NODES
    ensures Later(walk, cap, k) == AllNodes(walk)
  {
    LaterGrows(walk, cap, k);
  }
}
