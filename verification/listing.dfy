/** The file-listing helpers: keep the candidate paths that qualify as HDF5
    files, then (in the revisions that sort) order them as Python's
    `list.sort()` orders strings, by code point. */
module Listing {

  /** Python's `<=` on str: lexicographic by code point, a prefix first. */
  predicate LexLeq(a: string, b: string)
    decreases |a|
  {
    |a| == 0 || (|b| > 0 && (a[0] < b[0] || (a[0] == b[0] && LexLeq(a[1..], b[1..]))))
  }

  lemma {:induction false} LexTotal(a: string, b: string)
    ensures LexLeq(a, b) || LexLeq(b, a)
    decreases |a|
  {
    if |a| > 0 && |b| > 0 && a[0] == b[0] {
      LexTotal(a[1..], b[1..]);
    }
  }

  lemma {:induction false} LexTrans(a: string, b: string, c: string)
    requires LexLeq(a, b) && LexLeq(b, c)
    ensures LexLeq(a, c)
    decreases |a|
  {
    if |a| > 0 && a[0] == b[0] && b[0] == c[0] {
      LexTrans(a[1..], b[1..], c[1..]);
    }
  }

  lemma {:induction false} LexAntisym(a: string, b: string)
    requires LexLeq(a, b) && LexLeq(b, a)
    ensures a == b
    decreases |a|
  {
    if |a| > 0 {
      LexAntisym(a[1..], b[1..]);
      assert a == [a[0]] + a[1..] && b == [b[0]] + b[1..];
    }
  }

  ghost predicate Sorted(s: seq<string>)
  {
    forall i, j :: 0 <= i < j < |s| ==> LexLeq(s[i], s[j])
  }

  /** Insert x before the first element above it. */
  function Insert(x: string, s: seq<string>): (r: seq<string>)
    ensures multiset(r) == multiset(s) + multiset{x}
  {
    if |s| == 0 then [x]
    else if LexLeq(x, s[0]) then [x] + s
    else
      assert s == [s[0]] + s[1..];
      [s[0]] + Insert(x, s[1..])
  }

  /** Every element of a sorted sequence is at least its head. */
  lemma HeadLeast(s: seq<string>, y: string)
    requires Sorted(s) && |s| > 0 && y in s
    ensures LexLeq(s[0], y)
  {
    var k :| 0 <= k < |s| && s[k] == y;
    if k == 0 { LexTotal(y, y); }
  }

  lemma {:induction false} InsertSorted(x: string, s: seq<string>)
    requires Sorted(s)
    ensures Sorted(Insert(x, s))
  {
    if |s| > 0 && !LexLeq(x, s[0]) {
      LexTotal(x, s[0]);
      var tail := Insert(x, s[1..]);
      InsertSorted(x, s[1..]);
      forall j | 0 <= j < |tail| ensures LexLeq(s[0], tail[j]) {
        assert tail[j] in multiset(tail);
        if tail[j] != x {
          assert tail[j] in s[1..];
          HeadLeast(s, tail[j]);
        }
      }
    } else if |s| > 0 {
      forall j | 0 <= j < |s| ensures LexLeq(x, s[j]) {
        if j > 0 { LexTrans(x, s[0], s[j]); }
      }
    }
  }

  /** list.sort() on str paths. */
  function Sort(s: seq<string>): (r: seq<string>)
    ensures Sorted(r)
    ensures multiset(r) == multiset(s)
    ensures forall p :: p in r <==> p in s
  {
    if |s| == 0 then []
    else
      assert s == s[..|s| - 1] + [s[|s| - 1]];
      var r := Insert(s[|s| - 1], Sort(s[..|s| - 1]));
      InsertSorted(s[|s| - 1], Sort(s[..|s| - 1]));
      assert forall p :: p in r <==> p in multiset(r);
      assert forall p :: p in s <==> p in multiset(s);
      r
  }

  /** The candidates that qualify, in candidate order. */
  function Qualifying(candidates: seq<string>, qualifies: string -> bool): (r: seq<string>)
    ensures forall p :: p in r <==> p in candidates && qualifies(p)
    ensures |r| <= |candidates|
  {
    if |candidates| == 0 then []
    else
      var init := candidates[..|candidates| - 1];
      var last := candidates[|candidates| - 1];
      assert candidates == init + [last];
      Qualifying(init, qualifies) + (if qualifies(last) then [last] else [])
  }

  /** get_all_hdf5_files_in_a_directory of duplicate_analysis/check_duplicates_utils.py:
      the qualifying entries in listing order, unsorted; none when the path is not a directory. */
  function DirectoryFilesUnsorted(isDir: bool, entries: seq<string>, qualifies: string -> bool)
    : (r: seq<string>)
    ensures forall p :: p in r <==> isDir && p in entries && qualifies(p)
    ensures isDir ==> r == Qualifying(entries, qualifies)
  {
    if isDir then Qualifying(entries, qualifies) else []
  }

  /** get_all_hdf5_files_in_a_directory of utils/ and core/utils/: the same selection, sorted. */
  function DirectoryFiles(isDir: bool, entries: seq<string>, qualifies: string -> bool)
    : (r: seq<string>)
    ensures Sorted(r)
    ensures forall p :: p in r <==> isDir && p in entries && qualifies(p)
    ensures multiset(r) == multiset(DirectoryFilesUnsorted(isDir, entries, qualifies))
  {
    Sort(DirectoryFilesUnsorted(isDir, entries, qualifies))
  }

  /** get_all_hdf5_filenames_from_regex: the glob matches that qualify, sorted. */
  function FilenamesFromGlob(matches: seq<string>, qualifies: string -> bool): (r: seq<string>)
    ensures Sorted(r)
    ensures forall p :: p in r ==> qualifies(p)
    ensures forall p :: p in r <==> p in matches && qualifies(p)
    ensures multiset(r) == multiset(Qualifying(matches, qualifies))
  {
    Sort(Qualifying(matches, qualifies))
  }

  /** Two sorted arrangements of the same paths start with the same path. */
  lemma SortedHeads(a: seq<string>, b: seq<string>)
    requires Sorted(a) && Sorted(b) && |a| > 0 && |b| > 0
    requires multiset(a) == multiset(b)
    ensures a[0] == b[0]
  {
    assert a[0] in multiset(b) && b[0] in multiset(a);
    HeadLeast(b, a[0]);
    HeadLeast(a, b[0]);
    LexAntisym(a[0], b[0]);
  }

  /** Sorting has one answer: two sorted arrangements of the same paths are equal,
      so the sorted listing does not depend on the order the directory or glob yields. */
  lemma {:induction false} SortedUnique(a: seq<string>, b: seq<string>)
    requires Sorted(a) && Sorted(b)
    requires multiset(a) == multiset(b)
    ensures a == b
  {
    assert |a| == |multiset(a)| == |multiset(b)| == |b|;
    if |a| > 0 {
      SortedHeads(a, b);
      assert a == [a[0]] + a[1..] && b == [b[0]] + b[1..];
      assert multiset(a[1..]) == multiset(a) - multiset{a[0]};
      assert multiset(b[1..]) == multiset(b) - multiset{b[0]};
      SortedUnique(a[1..], b[1..]);
    }
  }

  /** The sorted listing is the same for any arrangement of the directory entries. */
  lemma DirectoryFilesOrderFree(isDir: bool, entries: seq<string>, other: seq<string>, qualifies: string -> bool)
    requires multiset(entries) == multiset(other)
    ensures DirectoryFiles(isDir, entries, qualifies) == DirectoryFiles(isDir, other, qualifies)
  {
    QualifyingMultiset(entries, other, qualifies);
    SortedUnique(DirectoryFiles(isDir, entries, qualifies), DirectoryFiles(isDir, other, qualifies));
  }

  lemma QualifyingMultiset(a: seq<string>, b: seq<string>, qualifies: string -> bool)
    requires multiset(a) == multiset(b)
    ensures multiset(Qualifying(a, qualifies)) == multiset(Qualifying(b, qualifies))
  {
    QualifyingCount(a, qualifies);
    QualifyingCount(b, qualifies);
  }

  /** Each qualifying path keeps its multiplicity; the others vanish. */
  lemma {:induction false} QualifyingCount(s: seq<string>, qualifies: string -> bool)
    ensures forall p :: multiset(Qualifying(s, qualifies))[p] == if qualifies(p) then multiset(s)[p] else 0
  {
    if |s| > 0 {
      var init := s[..|s| - 1];
      QualifyingCount(init, qualifies);
      assert s == init + [s[|s| - 1]];
    }
  }
}
