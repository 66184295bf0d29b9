/**
 Display names (kext/sysfs_iokit.cpp:813-838): siblings that share a stored name are told
 apart by an "@<n>" suffix. When this makes names unique is settled exactly.
 */
module Names {
  import opened Registry

  // ---------- Decimal numbers, as "%u" prints them

  function Digit(d: nat): char
    requires d < 10
  {
    '0' + d as char
  }

  function Decimal(n: nat): (s: string)
    ensures |s| > 0 && forall i :: 0 <= i < |s| ==> s[i] != '@' && s[i] != '/'
  {
    if n < 10 then [Digit(n)] else Decimal(n / 10) + [Digit(n % 10)]
  }

  lemma {:induction false} DecimalInjective(m: nat, n: nat)
    requires Decimal(m) == Decimal(n)
    ensures m == n
  {
    var s, t := Decimal(m), Decimal(n);
    assert s[|s| - 1] == t[|t| - 1];
    if m < 10 || n < 10 {
      assert |Decimal(m)| == |Decimal(n)|;
    } else {
      assert s[..|s| - 1] == Decimal(m / 10) && t[..|t| - 1] == Decimal(n / 10);
      DecimalInjective(m / 10, n / 10);
    }
  }

  /** What a digit stands for; 10 for a character that is none. */
  function ValueOf(c: char): nat {
    match c
    case '0' => 0
    case '1' => 1
    case '2' => 2
    case '3' => 3
    case '4' => 4
    case '5' => 5
    case '6' => 6
    case '7' => 7
    case '8' => 8
    case '9' => 9
    case _ => 10
  }

  /** A text of digits, read as a decimal number. */
  function ReadDecimal(s: string): nat {
    if s == [] then 0 else 10 * ReadDecimal(s[..|s| - 1]) + ValueOf(s[|s| - 1])
  }

  lemma DigitReadsBack(d: nat)
    requires d < 10
    ensures ValueOf(Digit(d)) == d
  {
    assert d == 0 || d == 1 || d == 2 || d == 3 || d == 4 || d == 5 || d == 6 || d == 7 || d == 8 || d == 9;
  }

  /** Reading the digits back gives the number; there are only digits, and none to spare. */
  lemma {:induction false} DecimalReadsBack(n: nat)
    ensures ReadDecimal(Decimal(n)) == n && (n > 0 ==> ValueOf(Decimal(n)[0]) > 0)
    ensures forall i :: 0 <= i < |Decimal(n)| ==> ValueOf(Decimal(n)[i]) < 10
  {
    var s := Decimal(n);
    DigitReadsBack(n % 10);
    if n < 10 {
      assert s[..0] == [];
    } else {
      DecimalReadsBack(n / 10);
      assert s[..|s| - 1] == Decimal(n / 10);
    }
  }

  /** A node index has at most five digits. */
  lemma DecimalShort(n: nat)
    requires n < MAX_NODES
    ensures |Decimal(n)| <= 5
  {
    var a := n / 10;
    var b := a / 10;
    var c := b / 10;
    assert |Decimal(c / 10)| == 1 && |Decimal(c)| <= 2 && |Decimal(b)| <= 3 && |Decimal(a)| <= 4;
  }

  // ---------- Display names

  function Display(name: string, dup: nat): string {
    if dup == 0 then name else name + "@" + Decimal(dup)
  }

  /** The display name of the i-th of some siblings. */
  ghost function DisplayAt(names: seq<string>, i: nat): string
    requires i < |names|
  {
    Display(names[i], CountEqual(names[..i], names[i]))
  }

  ghost predicate Distinct(names: seq<string>) {
    forall i, j :: 0 <= i < j < |names| ==> DisplayAt(names, i) != DisplayAt(names, j)
  }

  /** Some name occurs more than d times, and a sibling is stored under that name followed by "@d". */
  ghost predicate CollidesAt(names: seq<string>, name: string, d: nat) {
    1 <= d < CountEqual(names, name) && Display(name, d) in names
  }

  ghost predicate Collides(names: seq<string>) {
    exists name, d :: CollidesAt(names, name, d)
  }

  /** The part after the last '@' determines both parts. */
  lemma SuffixUnique(a: string, m: nat, b: string, n: nat)
    requires a + "@" + Decimal(m) == b + "@" + Decimal(n)
    ensures a == b && m == n
  {
    var s, t := a + "@" + Decimal(m), b + "@" + Decimal(n);
    assert s[|a|] == '@' && t[|b|] == '@';
    assert forall i :: |a| < i < |s| ==> s[i] == Decimal(m)[i - |a| - 1];
    assert forall i :: |b| < i < |t| ==> t[i] == Decimal(n)[i - |b| - 1];
    assert |a| == |b|;
    assert a == s[..|a|] && b == t[..|b|];
    assert Decimal(m) == s[|a| + 1..] && Decimal(n) == t[|b| + 1..];
    DecimalInjective(m, n);
  }

  // ---------- Counting occurrences

  lemma {:induction false} CountGrows(names: seq<string>, i: nat, j: nat, name: string)
    requires i <= j <= |names|
    ensures CountEqual(names[..i], name) <= CountEqual(names[..j], name)
    decreases j
  {
    if i < j {
      CountGrows(names, i, j - 1, name);
      assert names[..j][..j - 1] == names[..j - 1];
    }
  }

  lemma CountStep(names: seq<string>, i: nat, next: nat, name: string)
    requires i < |names| && next == i + 1
    ensures CountEqual(names[..next], name) == CountEqual(names[..i], name) + if names[i] == name then 1 else 0
  {
    assert names[..next][..i] == names[..i];
  }

  /** The occurrence of a name that has exactly d occurrences before it. */
  lemma {:induction false} NthOccurrence(names: seq<string>, name: string, d: nat) returns (i: nat)
    requires d < CountEqual(names, name)
    ensures i < |names| && names[i] == name && CountEqual(names[..i], name) == d
  {
    var last := |names| - 1;
    if d < CountEqual(names[..last], name) {
      i := NthOccurrence(names[..last], name, d);
      assert names[..last][..i] == names[..i];
    } else {
      i := last;
    }
  }

  lemma {:induction false} CountOfMember(names: seq<string>, i: nat)
    requires i < |names|
    ensures CountEqual(names, names[i]) > 0
  {
    CountStep(names, i, i + 1, names[i]);
    CountGrows(names, i + 1, |names|, names[i]);
    assert names[..|names|] == names;
  }

  // ---------- Uniqueness

  /** Two siblings of the same stored name never share a display name. */
  lemma SameNameApart(names: seq<string>, i: nat, j: nat)
    requires i < j < |names| && names[i] == names[j]
    ensures DisplayAt(names, i) != DisplayAt(names, j)
  {
    CountStep(names, i, i + 1, names[i]);
    CountGrows(names, i + 1, j, names[i]);
    var m, n := CountEqual(names[..i], names[i]), CountEqual(names[..j], names[j]);
    if m > 0 && Display(names[i], m) == Display(names[j], n) {
      SuffixUnique(names[i], m, names[j], n);
    }
  }

  /** A shared display name is a bare name on one side and a suffixed one on the other. */
  lemma SharedNameCollides(names: seq<string>, i: nat, j: nat)
    requires i < |names| && j < |names| && names[i] != names[j] && DisplayAt(names, i) == DisplayAt(names, j)
    ensures Collides(names)
  {
    var m, n := CountEqual(names[..i], names[i]), CountEqual(names[..j], names[j]);
    if m > 0 && n > 0 {
      SuffixUnique(names[i], m, names[j], n);
    } else {
      var (bare, full) := if m == 0 then (i, j) else (j, i);
      var d := CountEqual(names[..full], names[full]);
      CountStep(names, full, full + 1, names[full]);
      CountGrows(names, full + 1, |names|, names[full]);
      assert names[..|names|] == names;
      assert Display(names[full], d) == names[bare];
      assert CollidesAt(names, names[full], d);
    }
  }

  /** The bare sibling called "name@d" and the d-th repetition of "name" get the same display name. */
  lemma CollisionIsShared(names: seq<string>, name: string, d: nat) returns (i: nat, j: nat)
    requires CollidesAt(names, name, d)
    ensures i < |names| && j < |names| && i != j && DisplayAt(names, i) == DisplayAt(names, j)
  {
    var k :| 0 <= k < |names| && names[k] == Display(name, d);
    CountOfMember(names, k);
    i := NthOccurrence(names, Display(name, d), 0);
    j := NthOccurrence(names, name, d);
    assert |names[i]| > |names[j]|;
  }

  /**
   Display names are pairwise distinct exactly when no sibling is stored under another's name with an
   "@d" suffix that the repetitions of that other name reach.
   */
  lemma DistinctIffNoCollision(names: seq<string>)
    ensures Distinct(names) <==> !Collides(names)
  {
    if Collides(names) {
      var name, d :| CollidesAt(names, name, d);
      var i, j := CollisionIsShared(names, name, d);
      assert !Distinct(names);
    }
    if !Distinct(names) {
      var i, j :| 0 <= i < j < |names| && DisplayAt(names, i) == DisplayAt(names, j);
      if names[i] == names[j] { SameNameApart(names, i, j); }
      SharedNameCollides(names, i, j);
    }
  }

  /** The header's promise that a directory never lists two identical names fails here. */
  lemma DisplayNamesCanCollide()
    ensures !Distinct(["foo", "foo", "foo@1"])
  {
    var names := ["foo", "foo", "foo@1"];
    assert names[..0] == [] && names[..1] == ["foo"] && names[..2] == ["foo", "foo"];
    assert ["foo"][..0] == [] && ["foo", "foo"][..1] == ["foo"];
    assert CountEqual(["foo"], "foo") == 1;
    assert CountEqual(["foo", "foo"], "foo@1") == 0;
    assert Decimal(1) == "1";
    assert DisplayAt(names, 1) == DisplayAt(names, 2);
  }

  /** Both callers' buffers (144 bytes in child_named, 256 in readdir) hold any display name. */
  lemma DisplayFits(name: string, dup: nat)
    requires |name| < NAME_MAX_STORED && dup < MAX_NODES
    ensures |Display(name, dup)| < NAME_MAX_STORED + 16
    ensures Strlcpy(Display(name, dup), NAME_MAX_STORED + 16) == Display(name, dup)
    ensures Strlcpy(Display(name, dup), 256) == Display(name, dup)
  {
    DecimalShort(dup);
  }
}
