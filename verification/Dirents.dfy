/**
 Reading a directory in pieces (kext/sysfs_vnops.c:695-1038, :1337-1431), on values: what one
 call may answer for a fixed listing, and what any sequence of calls then delivers.
 */
module Dirents {
  /** DT_DIR, DT_REG and DT_LNK. */
  datatype EntryType = Directory | Regular | Symlink

  /** The three parts a file id is made of. */
  datatype NodeId = NodeId(regid: nat, objectid: nat, baseId: nat)

  datatype Item = Item(name: string, dtype: EntryType, id: NodeId)

  /** A record; d_ino is the file id made from `id`. */
  datatype Dirent = Dirent(id: NodeId, seekoff: nat, reclen: nat, dtype: EntryType, name: string)

  const EINVAL: nat := 22

  /** sysfs_calc_dirent_size(): the fixed 24 bytes, and the name with its terminator rounded up to 8. */
  function DirentSize(name: string): (size: nat)
    ensures size >= 24 + |name| + 1
  {
    24 + (|name| + 1 + 7) / 8 * 8
  }

  lemma DirentSizeIsTight(name: string)
    ensures DirentSize(name) % 8 == 0 && DirentSize(name) < 24 + |name| + 1 + 8
  {
  }

  /** Where the k-th entry starts in the directory. */
  function Pos(items: seq<Item>, k: nat): nat
    requires k <= |items|
  {
    if k == 0 then 0 else Pos(items, k - 1) + DirentSize(items[k - 1].name)
  }

  function DirentAt(items: seq<Item>, k: nat): Dirent
    requires k < |items|
  {
    Dirent(items[k].id, Pos(items, k) + DirentSize(items[k].name), DirentSize(items[k].name), items[k].dtype,
           items[k].name)
  }

  /** The records of the first k entries. */
  function Listing(items: seq<Item>, k: nat): (all: seq<Dirent>)
    requires k <= |items|
    ensures |all| == k
  {
    if k == 0 then [] else Listing(items, k - 1) + [DirentAt(items, k - 1)]
  }

  /** What has been copied out after k entries: those at or after the caller's offset. */
  function Emitted(items: seq<Item>, start: nat, k: nat): seq<Dirent>
    requires k <= |items|
  {
    if k == 0 then []
    else Emitted(items, start, k - 1) + (if Pos(items, k - 1) >= start then [DirentAt(items, k - 1)] else [])
  }

  function Used(items: seq<Item>, start: nat, k: nat): nat
    requires k <= |items|
  {
    if k == 0 then 0
    else Used(items, start, k - 1) + (if Pos(items, k - 1) >= start then DirentSize(items[k - 1].name) else 0)
  }

  /** One call: where it started, its buffer, how far it got, what it answered. */
  datatype Call = Call(start: nat, size: nat, reached: nat, out: seq<Dirent>, offset: nat, left: nat, eof: bool,
                       error: nat)

  /** What each of the four readdir variants is proved to do on its listing. */
  ghost predicate Answers(items: seq<Item>, c: Call) {
    && c.reached <= |items|
    && c.out == Emitted(items, c.start, c.reached) && c.offset == Pos(items, c.reached)
    && c.size == c.left + Used(items, c.start, c.reached)
    && (c.reached < |items| ==> c.left == 0 ||
                                (Pos(items, c.reached) >= c.start && DirentSize(items[c.reached].name) > c.left))
    && (c.eof ==> c.reached == |items|) && (c.reached == |items| && c.left > 0 ==> c.eof)
    && c.error == if c.out == [] && !c.eof then EINVAL else 0
  }

  // ---------- Offsets

  /** The first entry at or after an offset. */
  function First(items: seq<Item>, start: nat, n: nat): (k: nat)
    requires n <= |items|
    ensures k <= n
  {
    if n == 0 then 0 else if Pos(items, n - 1) >= start then First(items, start, n - 1) else n
  }

  lemma {:induction false} PosGrows(items: seq<Item>, j: nat, k: nat)
    requires j <= k <= |items|
    ensures Pos(items, j) <= Pos(items, k) && (j < k ==> Pos(items, j) < Pos(items, k))
    decreases k
  {
    if j < k { PosGrows(items, j, k - 1); }
  }

  lemma {:induction false} FirstSplits(items: seq<Item>, start: nat, n: nat, k: nat)
    requires k < n <= |items|
    ensures Pos(items, k) >= start <==> k >= First(items, start, n)
    decreases n
  {
    if k < n - 1 {
      PosGrows(items, k, n - 1);
      FirstSplits(items, start, n - 1, k);
    }
  }

  lemma FirstIsEnough(items: seq<Item>, start: nat, k: nat)
    requires k <= |items| && Pos(items, k) >= start
    ensures First(items, start, |items|) <= k
  {
    if k < |items| { FirstSplits(items, start, |items|, k); }
  }

  /** An entry's own offset leads back to it: a listing resumed there goes on with that entry. */
  lemma FirstInverts(items: seq<Item>, k: nat)
    requires k <= |items|
    ensures First(items, Pos(items, k), |items|) == k
  {
    var f := First(items, Pos(items, k), |items|);
    FirstIsEnough(items, Pos(items, k), k);
    if f < k {
      FirstSplits(items, Pos(items, k), |items|, f);
      PosGrows(items, f, k);
    }
  }

  lemma {:induction false} ListingAt(items: seq<Item>, n: nat, k: nat)
    requires k < n <= |items|
    ensures Listing(items, n)[k] == DirentAt(items, k)
  {
    if k < n - 1 { ListingAt(items, n - 1, k); }
  }

  /** A record is its entry, and starts where the record before it says the next one does. */
  lemma {:induction false} RecordsCarryItems(items: seq<Item>, k: nat)
    requires k < |items|
    ensures var all := Listing(items, |items|);
            && all[k].name == items[k].name && all[k].dtype == items[k].dtype && all[k].id == items[k].id
            && all[k].reclen == 24 + (|items[k].name| + 8) / 8 * 8
            && all[k].seekoff == (if k == 0 then 0 else all[k - 1].seekoff) + all[k].reclen
  {
    ListingAt(items, |items|, k);
    if k > 0 { ListingAt(items, |items|, k - 1); }
  }

  lemma {:induction false} ListingPrefix(items: seq<Item>, k: nat, n: nat)
    requires k <= n <= |items|
    ensures Listing(items, n)[..k] == Listing(items, k)
    decreases n
  {
    if k < n {
      ListingPrefix(items, k, n - 1);
      assert Listing(items, n)[..k] == Listing(items, n - 1)[..k];
    } else {
      assert Listing(items, n)[..n] == Listing(items, n);
    }
  }

  /** The listing up to k is the listing up to j and a stretch. */
  lemma ListingJoins(items: seq<Item>, j: nat, k: nat)
    requires j <= k <= |items|
    ensures Listing(items, j) + Listing(items, k)[j..] == Listing(items, k)
  {
    ListingPrefix(items, j, k);
    assert Listing(items, k) == Listing(items, k)[..j] + Listing(items, k)[j..];
  }

  /** How much is emitted, and what it takes. */
  lemma {:induction false} EmittedSizes(items: seq<Item>, start: nat, f: nat, k: nat)
    requires k <= |items| && f == First(items, start, |items|)
    ensures |Emitted(items, start, k)| == if k <= f then 0 else k - f
    ensures Used(items, start, k) == if k <= f then 0 else Pos(items, k) - Pos(items, f)
  {
    if k > 0 {
      EmittedSizes(items, start, f, k - 1);
      FirstSplits(items, start, |items|, k - 1);
    }
  }

  /** What is emitted is a stretch of the listing. */
  lemma {:induction false} EmittedIsStretch(items: seq<Item>, start: nat, f: nat, k: nat)
    requires f <= k <= |items| && f == First(items, start, |items|)
    ensures Emitted(items, start, k) == Listing(items, k)[f..]
  {
    EmittedSizes(items, start, f, k);
    if k > f {
      EmittedIsStretch(items, start, f, k - 1);
      FirstSplits(items, start, |items|, k - 1);
      assert Listing(items, k)[f..] == Listing(items, k - 1)[f..] + [DirentAt(items, k - 1)];
    }
  }

  // ---------- One call

  /** A call with any room at all gets at least to the first entry wanted. */
  lemma CallReaches(items: seq<Item>, c: Call, f: nat)
    requires Answers(items, c) && c.size > 0 && f == First(items, c.start, |items|)
    ensures f <= c.reached && |c.out| == c.reached - f && c.size == c.left + (Pos(items, c.reached) - Pos(items, f))
  {
    EmittedSizes(items, c.start, f, c.reached);
    if c.reached < f { FirstSplits(items, c.start, |items|, c.reached); }
  }

  /** It emits just the stretch from there. */
  lemma CallEmitsStretch(items: seq<Item>, c: Call)
    requires Answers(items, c) && c.size > 0
    ensures First(items, c.start, |items|) <= c.reached
    ensures c.out == Listing(items, c.reached)[First(items, c.start, |items|)..]
  {
    var f := First(items, c.start, |items|);
    CallReaches(items, c, f);
    EmittedIsStretch(items, c.start, f, c.reached);
  }

  /** A call that returns 0 moves the offset forward, or reports the end. */
  lemma CallAdvances(items: seq<Item>, c: Call)
    requires Answers(items, c) && c.error == 0
    ensures c.eof || c.offset > c.start
  {
    var f := First(items, c.start, |items|);
    EmittedSizes(items, c.start, f, c.reached);
    if !c.eof {
      FirstSplits(items, c.start, |items|, f);
      PosGrows(items, f, c.reached);
    }
  }

  /** EINVAL means just that the next entry does not fit. */
  lemma EinvalIff(items: seq<Item>, c: Call)
    requires Answers(items, c) && c.size > 0
    ensures var f := First(items, c.start, |items|);
            c.error == EINVAL <==> f < |items| && DirentSize(items[f].name) > c.size
  {
    var f := First(items, c.start, |items|);
    CallReaches(items, c, f);
    if c.reached > f {
      PosGrows(items, f + 1, c.reached);
      assert Pos(items, f + 1) == Pos(items, f) + DirentSize(items[f].name);
    }
  }

  /** The seek offset in a record is where the rest of the listing starts. */
  lemma SeekoffResumes(items: seq<Item>, c: Call, f: nat, i: nat)
    requires Answers(items, c) && c.size > 0 && f == First(items, c.start, |items|) && i < |c.out|
    ensures f + i < |items| && c.out[i] == DirentAt(items, f + i)
    ensures First(items, c.out[i].seekoff, |items|) == f + i + 1
  {
    CallEmitsStretch(items, c);
    StretchAt(items, c.reached, f, i, c.out);
  }

  lemma StretchAt(items: seq<Item>, reached: nat, f: nat, i: nat, out: seq<Dirent>)
    requires f <= reached <= |items| && out == Listing(items, reached)[f..] && i < |out|
    ensures f + i < |items| && out[i] == DirentAt(items, f + i) && First(items, out[i].seekoff, |items|) == f + i + 1
  {
    ListingAt(items, reached, f + i);
    FirstInverts(items, f + i + 1);
    assert Pos(items, f + i + 1) == Pos(items, f + i) + DirentSize(items[f + i].name);
  }

  // ---------- Any sequence of calls

  /** Calls one after the other from the start, each with room for at least the next entry. */
  ghost predicate IsScan(items: seq<Item>, calls: seq<Call>) {
    forall i: nat {:trigger InScan(items, calls, i)} :: i < |calls| ==> InScan(items, calls, i)
  }

  ghost predicate InScan(items: seq<Item>, calls: seq<Call>, i: nat) {
    i < |calls| && Answers(items, calls[i]) && calls[i].start == StartOf(calls, i) && Roomy(items, calls[i])
  }

  function StartOf(calls: seq<Call>, i: nat): nat
    requires i <= |calls|
  {
    if i == 0 then 0 else calls[i - 1].offset
  }

  ghost predicate Roomy(items: seq<Item>, c: Call) {
    var f := First(items, c.start, |items|);
    c.size > 0 && (f < |items| ==> c.size >= DirentSize(items[f].name))
  }

  function Delivered(calls: seq<Call>, i: nat): seq<Dirent>
    requires i <= |calls|
  {
    if i == 0 then [] else Delivered(calls, i - 1) + calls[i - 1].out
  }

  /** How far the first i calls got. */
  function Reached(calls: seq<Call>, i: nat): nat
    requires i <= |calls|
  {
    if i == 0 then 0 else calls[i - 1].reached
  }

  /** A call that starts where the listing has got to continues it. */
  lemma CallContinues(items: seq<Item>, c: Call, before: nat)
    requires Answers(items, c) && c.size > 0 && before <= |items| && c.start == Pos(items, before)
    ensures Listing(items, before) + c.out == Listing(items, c.reached)
  {
    FirstInverts(items, before);
    CallEmitsStretch(items, c);
    ListingJoins(items, before, c.reached);
  }

  /** At every point of a scan, what has been delivered is the listing so far: nothing lost, nothing repeated. */
  lemma {:induction false} ScanDeliversListing(items: seq<Item>, calls: seq<Call>, i: nat)
    requires IsScan(items, calls) && i <= |calls|
    ensures Reached(calls, i) <= |items| && Delivered(calls, i) == Listing(items, Reached(calls, i))
    ensures StartOf(calls, i) == Pos(items, Reached(calls, i))
  {
    if i > 0 {
      ScanDeliversListing(items, calls, i - 1);
      assert InScan(items, calls, i - 1);
      CallContinues(items, calls[i - 1], Reached(calls, i - 1));
    }
  }

  /** Every call of a scan succeeds and gets further, until everything is delivered. */
  lemma ScanProgresses(items: seq<Item>, calls: seq<Call>, i: nat)
    requires IsScan(items, calls) && i < |calls|
    ensures calls[i].error == 0 && (calls[i].eof || calls[i].reached > Reached(calls, i))
    ensures Reached(calls, i) == |items| ==> calls[i].eof
  {
    ScanDeliversListing(items, calls, i);
    assert InScan(items, calls, i);
    var c, before := calls[i], Reached(calls, i);
    FirstInverts(items, before);
    EinvalIff(items, c);
    CallReaches(items, c, before);
  }

  lemma {:induction false} ScanGetsFar(items: seq<Item>, calls: seq<Call>, i: nat)
    requires IsScan(items, calls) && i <= |calls| && forall j :: 0 <= j < i ==> !calls[j].eof
    ensures Reached(calls, i) >= i
  {
    if i > 0 {
      ScanGetsFar(items, calls, i - 1);
      ScanProgresses(items, calls, i - 1);
    }
  }

  /**
   A scan ends: the end is reported within one call more than there are entries, and by then all of
   them have been delivered.
   */
  lemma ScanEnds(items: seq<Item>, calls: seq<Call>)
    requires IsScan(items, calls) && |calls| > |items|
    ensures exists i :: 0 <= i <= |items| && calls[i].eof && Delivered(calls, i + 1) == Listing(items, |items|)
  {
    if forall j :: 0 <= j <= |items| ==> !calls[j].eof {
      ScanGetsFar(items, calls, |items|);
      ScanDeliversListing(items, calls, |items|);
      ScanProgresses(items, calls, |items|);
    }
    var i :| 0 <= i <= |items| && calls[i].eof;
    assert InScan(items, calls, i);
    ScanDeliversListing(items, calls, i + 1);
  }
}
