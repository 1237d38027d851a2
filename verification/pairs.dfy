/** check_duplicates_in_same_directory: compare every pair of files in the
    directory listing, `for i in range(n - 1): for j in range(i + 1, n)`. */
module Pairs {

  import opened Outcomes
  import opened Containers
  import opened Fingerprint
  import opened Pipelines
  import Listing

  /** The pairs (i, j) for i + 1 <= j < n in order. */
  function RowPairs(i: nat, lo: nat, n: nat): seq<(nat, nat)>
    decreases n - lo
  {
    if lo >= n then [] else [(i, lo)] + RowPairs(i, lo + 1, n)
  }

  /** Rows 0..r-1 of the double loop. */
  function PairsUpTo(r: nat, n: nat): seq<(nat, nat)>
  {
    if r == 0 then [] else PairsUpTo(r - 1, n) + RowPairs(r - 1, r, n)
  }

  /** Lexicographic order on pairs, strict. */
  predicate LexLess(p: (nat, nat), q: (nat, nat))
  {
    p.0 < q.0 || (p.0 == q.0 && p.1 < q.1)
  }

  lemma {:induction false} RowPairsLength(i: nat, lo: nat, n: nat)
    ensures |RowPairs(i, lo, n)| == if lo >= n then 0 else n - lo
    decreases n - lo
  {
    if lo < n {
      RowPairsLength(i, lo + 1, n);
    }
  }

  lemma {:induction false} RowPairsFacts(i: nat, lo: nat, n: nat)
    ensures forall p :: p in RowPairs(i, lo, n) <==> p.0 == i && lo <= p.1 < n
    ensures forall a, b :: 0 <= a < b < |RowPairs(i, lo, n)| ==>
              LexLess(RowPairs(i, lo, n)[a], RowPairs(i, lo, n)[b])
    decreases n - lo
  {
    if lo < n {
      RowPairsFacts(i, lo + 1, n);
    }
  }

  lemma {:induction false} PairsUpToMembers(r: nat, n: nat)
    requires r <= n
    ensures forall p :: p in PairsUpTo(r, n) <==> p.0 < r && p.0 < p.1 < n
  {
    if r > 0 {
      PairsUpToMembers(r - 1, n);
      RowPairsFacts(r - 1, r, n);
    }
  }

  lemma {:induction false} PairsUpToSorted(r: nat, n: nat)
    requires r <= n
    ensures forall a, b :: 0 <= a < b < |PairsUpTo(r, n)| ==>
              LexLess(PairsUpTo(r, n)[a], PairsUpTo(r, n)[b])
  {
    if r > 0 {
      PairsUpToSorted(r - 1, n);
      PairsUpToMembers(r - 1, n);
      RowPairsFacts(r - 1, r, n);
      var prev := PairsUpTo(r - 1, n);
      var row := RowPairs(r - 1, r, n);
      assert PairsUpTo(r, n) == prev + row;
      forall a, b | 0 <= a < |prev| && 0 <= b < |row| ensures LexLess(prev[a], row[b]) {
        assert prev[a] in prev;
        assert row[b] in row;
      }
    }
  }

  lemma {:induction false} PairsUpToCount(r: nat, n: nat)
    requires r <= n
    ensures 2 * |PairsUpTo(r, n)| == r * (2 * n - r - 1)
  {
    if r > 0 {
      PairsUpToCount(r - 1, n);
      RowPairsLength(r - 1, r, n);
      assert |PairsUpTo(r, n)| == |PairsUpTo(r - 1, n)| + (n - r);
      CountStep(r, n);
    }
  }

  /** All rows of the double loop: every pair i < j < n once, in lexicographic order. */
  lemma AllPairsFacts(n: nat)
    ensures forall p :: p in PairsUpTo(n, n) <==> p.0 < p.1 < n
    ensures forall a, b :: 0 <= a < b < |PairsUpTo(n, n)| ==> LexLess(PairsUpTo(n, n)[a], PairsUpTo(n, n)[b])
    ensures |PairsUpTo(n, n)| == n * (n - 1) / 2
    ensures n > 0 ==> PairsUpTo(n, n) == PairsUpTo(n - 1, n)
  {
    if n > 0 { assert RowPairs(n - 1, n, n) == []; }
    PairsUpToMembers(n, n);
    PairsUpToSorted(n, n);
    PairsUpToCount(n, n);
  }

  lemma CountStep(r: int, n: int)
    ensures (r - 1) * (2 * n - r) + 2 * (n - r) == r * (2 * n - r - 1)
  {
    assert (r - 1) * (2 * n - r) == r * (2 * n - r) - (2 * n - r);
    assert r * (2 * n - r) - r == r * (2 * n - r - 1);
  }

  /** The loop of check_duplicates_in_same_directory over n files. */
  method ComparedPairs(n: nat) returns (pairs: seq<(nat, nat)>)
    ensures forall p :: p in pairs <==> p.0 < p.1 < n
    ensures forall a, b :: 0 <= a < b < |pairs| ==> LexLess(pairs[a], pairs[b])
    ensures |pairs| == n * (n - 1) / 2
  {
    pairs := [];
    var i := 0;
    while i < n - 1
      invariant 0 <= i <= if n == 0 then 0 else n - 1
      invariant pairs == PairsUpTo(i, n)
    {
      var j := i + 1;
      while j < n
        invariant i + 1 <= j <= n
        invariant pairs + RowPairs(i, j, n) == PairsUpTo(i + 1, n)
      {
        assert RowPairs(i, j, n) == [(i, j)] + RowPairs(i, j + 1, n);
        pairs := pairs + [(i, j)];
        j := j + 1;
      }
      i := i + 1;
    }
    AllPairsFacts(n);
  }

  /** No file is compared with itself and no unordered pair twice. */
  lemma NoSelfNoRepeat(n: nat, pairs: seq<(nat, nat)>)
    requires forall p :: p in pairs <==> p.0 < p.1 < n
    requires forall a, b :: 0 <= a < b < |pairs| ==> LexLess(pairs[a], pairs[b])
    ensures forall a :: 0 <= a < |pairs| ==> pairs[a].0 != pairs[a].1
    ensures forall a, b :: 0 <= a < b < |pairs| ==>
              pairs[a] != pairs[b] && pairs[a] != (pairs[b].1, pairs[b].0)
  {
    forall a, b | 0 <= a < b < |pairs|
      ensures pairs[a] != pairs[b] && pairs[a] != (pairs[b].1, pairs[b].0)
    {
      assert pairs[a] in pairs && pairs[b] in pairs;
    }
    forall a | 0 <= a < |pairs| ensures pairs[a].0 != pairs[a].1 {
      assert pairs[a] in pairs;
    }
  }

  /** Run one comparison per pair, in order; the first raise aborts the scan. */
  function RunPairs(cmp: (nat, nat) -> Result<()>, pairs: seq<(nat, nat)>): (r: Result<()>)
    ensures r.Ok? <==> forall p :: p in pairs ==> cmp(p.0, p.1).Ok?
    ensures r.Err? ==> exists p :: p in pairs && cmp(p.0, p.1) == Err(r.error)
  {
    if |pairs| == 0 then Ok(())
    else
      var p := pairs[0];
      match cmp(p.0, p.1)
      case Err(e) => Err(e)
      case Ok(_) =>
        var rest := RunPairs(cmp, pairs[1..]);
        assert forall q :: q in pairs ==> q == p || q in pairs[1..];
        rest
  }

  /** Running over every pair i < j < n completes exactly when each comparison
      does, and a failure is some pair's failure. */
  lemma AllPairsCovered(cmp: (nat, nat) -> Result<()>, n: nat)
    ensures RunPairs(cmp, PairsUpTo(n, n)).Ok? <==>
              forall i: nat, j: nat :: i < j < n ==> cmp(i, j).Ok?
    ensures RunPairs(cmp, PairsUpTo(n, n)).Err? ==>
              exists i: nat, j: nat :: i < j < n && cmp(i, j) == Err(RunPairs(cmp, PairsUpTo(n, n)).error)
  {
    PairsUpToMembers(n, n);
    var r := RunPairs(cmp, PairsUpTo(n, n));
    if r.Ok? {
      forall i: nat, j: nat | i < j < n ensures cmp(i, j).Ok? {
        assert (i, j) in PairsUpTo(n, n);
      }
    } else {
      var p :| p in PairsUpTo(n, n) && cmp(p.0, p.1) == Err(r.error);
      var i: nat, j: nat := p.0, p.1;
      assert i < j < n;
    }
  }

  /** compare_two_hdf5_files on two files of the listing, with its return value dropped. */
  function PairOutcome(h: Bytes -> Digest, files: seq<Hdf5File>, i: nat, j: nat): (r: Result<()>)
    requires forall f :: f in files ==> f.Valid()
    ensures i < |files| && j < |files| ==> (r.Ok? <==> CompareFilesHashing(h, files[i], files[j]).Ok?)
    ensures r.Err? ==> i < |files| && j < |files| && r.error == CompareFilesHashing(h, files[i], files[j]).error
  {
    if i < |files| && j < |files| then
      match CompareFilesHashing(h, files[i], files[j])
      case Ok(_) => Ok(())
      case Err(e) => Err(e)
    else Ok(())
  }

  /** check_duplicates_in_same_directory over the listed files: it completes exactly
      when every pair of distinct files compares without raising. */
  function CheckDuplicatesInSameDirectory(h: Bytes -> Digest, files: seq<Hdf5File>): (r: Result<()>)
    requires forall f :: f in files ==> f.Valid()
    ensures r.Ok? <==> forall i: nat, j: nat :: i < j < |files| ==> PairOutcome(h, files, i, j).Ok?
    ensures r.Err? ==> exists i: nat, j: nat :: i < j < |files| && PairOutcome(h, files, i, j) == Err(r.error)
  {
    var cmp := (i: nat, j: nat) => PairOutcome(h, files, i, j);
    var n := |files|;
    assert forall i: nat, j: nat :: cmp(i, j) == PairOutcome(h, files, i, j);
    AllPairsCovered(cmp, n);
    RunPairs(cmp, PairsUpTo(n, n))
  }

  /** check_duplicates_in_same_directory from the path: list the directory without
      sorting, open each listed file, and compare every pair of them. Opening is a
      parameter; every listed path names an HDF5 file. */
  function CheckDuplicatesInDirectory(h: Bytes -> Digest, isDir: bool, entries: seq<string>,
                                      qualifies: string -> bool, openFile: string -> Hdf5File): (r: Result<()>)
    requires forall p :: openFile(p).Valid()
    ensures var listed := Listing.DirectoryFilesUnsorted(isDir, entries, qualifies);
            r.Ok? <==> forall i: nat, j: nat :: i < j < |listed| ==>
                         CompareFilesHashing(h, openFile(listed[i]), openFile(listed[j])).Ok?
    ensures var listed := Listing.DirectoryFilesUnsorted(isDir, entries, qualifies);
            r.Err? ==> exists i: nat, j: nat :: i < j < |listed| &&
                         CompareFilesHashing(h, openFile(listed[i]), openFile(listed[j])).Err? &&
                         CompareFilesHashing(h, openFile(listed[i]), openFile(listed[j])).error == r.error
  {
    var listed := Listing.DirectoryFilesUnsorted(isDir, entries, qualifies);
    var files := seq(|listed|, i requires 0 <= i < |listed| => openFile(listed[i]));
    OpenedRun(h, listed, openFile, files);
    CheckDuplicatesInSameDirectory(h, files)
  }

  /** The pairwise scan over the opened files, stated over the listed paths. */
  lemma OpenedRun(h: Bytes -> Digest, listed: seq<string>, openFile: string -> Hdf5File, files: seq<Hdf5File>)
    requires forall p :: openFile(p).Valid()
    requires files == seq(|listed|, i requires 0 <= i < |listed| => openFile(listed[i]))
    ensures forall f :: f in files ==> f.Valid()
    ensures CheckDuplicatesInSameDirectory(h, files).Ok? <==>
              forall i: nat, j: nat :: i < j < |listed| ==>
                CompareFilesHashing(h, openFile(listed[i]), openFile(listed[j])).Ok?
    ensures CheckDuplicatesInSameDirectory(h, files).Err? ==>
              exists i: nat, j: nat :: i < j < |listed| &&
                CompareFilesHashing(h, openFile(listed[i]), openFile(listed[j])).Err? &&
                CompareFilesHashing(h, openFile(listed[i]), openFile(listed[j])).error ==
                  CheckDuplicatesInSameDirectory(h, files).error
  {
    OpenedPairs(h, listed, openFile, files);
    var r := CheckDuplicatesInSameDirectory(h, files);
    if r.Err? {
      var i: nat, j: nat :| i < j < |files| && PairOutcome(h, files, i, j) == Err(r.error);
      assert CompareFilesHashing(h, openFile(listed[i]), openFile(listed[j])).Err?;
    }
  }

  /** Each pair outcome over the opened files is the comparison of the two opened paths. */
  lemma OpenedPairs(h: Bytes -> Digest, listed: seq<string>, openFile: string -> Hdf5File, files: seq<Hdf5File>)
    requires forall p :: openFile(p).Valid()
    requires files == seq(|listed|, i requires 0 <= i < |listed| => openFile(listed[i]))
    ensures forall f :: f in files ==> f.Valid()
    ensures forall i: nat, j: nat :: i < j < |files| ==>
              && (PairOutcome(h, files, i, j).Ok? <==>
                  CompareFilesHashing(h, openFile(listed[i]), openFile(listed[j])).Ok?)
              && (PairOutcome(h, files, i, j).Err? ==>
                  PairOutcome(h, files, i, j).error == CompareFilesHashing(h, openFile(listed[i]), openFile(listed[j])).error)
  {
    assert forall i :: 0 <= i < |files| ==> files[i] == openFile(listed[i]);
  }
}
