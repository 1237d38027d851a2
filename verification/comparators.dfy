/** The detection loops of compare_two_hdf5_files_numpy and of the hashing
    comparators (compare_two_hdf5_files_hashing, compare_two_hdf5_files). */
module Comparators {

  import opened Containers
  import opened Scan

  /** Datasets for `keys` exist on both sides with at least n1 / n2 records. */
  ghost predicate Indexable(keys: seq<string>, d1: map<string, Field>, n1: nat,
                            d2: map<string, Field>, n2: nat)
  {
    forall k :: k in keys ==> k in d1 && k in d2 && n1 <= |d1[k]| && n2 <= |d2[k]|
  }

  /** The numpy comparator's match: np.array_equal holds on every common key. */
  function NumpyMatch(keys: seq<string>, d1: map<string, Field>, d2: map<string, Field>)
    : (nat, nat) -> bool
  {
    (i: nat, j: nat) => RecordsEqual(keys, d1, i, d2, j)
  }

  /** The hashing comparator's match: equal hex digests. */
  function HashMatch(h1: seq<string>, h2: seq<string>): (nat, nat) -> bool
  {
    (i: nat, j: nat) => i < |h1| && j < |h2| && h1[i] == h2[j]
  }

  /** The innermost loop: compare record i with record j key by key and
      stop at the first unequal key. */
  method RecordsMatch(keys: seq<string>, d1: map<string, Field>, i: nat,
                      d2: map<string, Field>, j: nat) returns (isDuplicate: bool)
    requires forall k :: k in keys ==> k in d1 && k in d2 && i < |d1[k]| && j < |d2[k]|
    ensures isDuplicate <==> RecordsEqual(keys, d1, i, d2, j)
  {
    isDuplicate := true;
    var t := 0;
    while t < |keys|
      invariant 0 <= t <= |keys|
      invariant isDuplicate <==> forall u :: 0 <= u < t ==> d1[keys[u]][i] == d2[keys[u]][j]
    {
      if d1[keys[t]][i] != d2[keys[t]][j] {
        isDuplicate := false;
        break;
      }
      t := t + 1;
    }
    if isDuplicate {
      forall k | k in keys ensures d1[k][i] == d2[k][j] {
        var u :| 0 <= u < |keys| && keys[u] == k;
      }
    }
  }

  /** What the numpy comparator's list says, read back from the double-loop shape. */
  lemma NumpyTableFacts(keys: seq<string>, d1: map<string, Field>, n1: nat,
                        d2: map<string, Field>, n2: nat)
    ensures forall i: nat :: i in Table(NumpyMatch(keys, d1, d2), n1, n2) <==>
              i < n1 && exists j: nat :: j < n2 && RecordsEqual(keys, d1, i, d2, j)
  {
    var matches := NumpyMatch(keys, d1, d2);
    TableMembers(matches, n1, n2);
    forall x: nat ensures x in Table(matches, n1, n2) <==>
        x < n1 && exists j: nat :: j < n2 && RecordsEqual(keys, d1, x, d2, j) {
      if x in Table(matches, n1, n2) {
        var j: nat :| j < n2 && matches(x, j);
        assert RecordsEqual(keys, d1, x, d2, j);
      }
      if x < n1 && exists j: nat :: j < n2 && RecordsEqual(keys, d1, x, d2, j) {
        var j: nat :| j < n2 && RecordsEqual(keys, d1, x, d2, j);
        assert matches(x, j);
      }
    }
  }

  /** The triple loop of compare_two_hdf5_files_numpy. */
  method CompareNumpy(keys: seq<string>, d1: map<string, Field>, n1: nat,
                      d2: map<string, Field>, n2: nat) returns (dups: seq<nat>)
    requires Indexable(keys, d1, n1, d2, n2)
    ensures dups == Table(NumpyMatch(keys, d1, d2), n1, n2)
    ensures forall i: nat :: i in dups <==>
              i < n1 && exists j: nat :: j < n2 && RecordsEqual(keys, d1, i, d2, j)
    ensures forall a, b :: 0 <= a < b < |dups| ==> dups[a] <= dups[b]
    ensures forall a :: 0 <= a < |dups| ==> dups[a] < n1
  {
    ghost var matches := NumpyMatch(keys, d1, d2);
    dups := [];
    var i := 0;
    while i < n1
      invariant 0 <= i <= n1
      invariant dups == Table(matches, i, n2)
    {
      var j := 0;
      while j < n2
        invariant 0 <= j <= n2
        invariant dups == Table(matches, i, n2) + Row(matches, i, j)
      {
        var isDuplicate := RecordsMatch(keys, d1, i, d2, j);
        if isDuplicate {
          dups := dups + [i];
        }
        j := j + 1;
      }
      i := i + 1;
    }
    NumpyTableFacts(keys, d1, n1, d2, n2);
    TableSorted(matches, n1, n2);
  }

  /** In the numpy comparator's list, index i occurs once per record of file 2
      equal to record i, and indices at or above n1 never occur. */
  lemma NumpyListCount(keys: seq<string>, d1: map<string, Field>, n1: nat,
                       d2: map<string, Field>, n2: nat, dups: seq<nat>)
    requires dups == Table(NumpyMatch(keys, d1, d2), n1, n2)
    ensures forall i: nat :: Occ(dups, i) ==
              if i < n1 then |set j: nat | j < n2 && RecordsEqual(keys, d1, i, d2, j)| else 0
  {
    var matches := NumpyMatch(keys, d1, d2);
    forall i: nat ensures Occ(dups, i) ==
        if i < n1 then |set j: nat | j < n2 && RecordsEqual(keys, d1, i, d2, j)| else 0 {
      TableCount(matches, n1, n2, i);
      assert (set j: nat | j < n2 && matches(i, j)) == (set j: nat | j < n2 && RecordsEqual(keys, d1, i, d2, j));
    }
  }

  /** The double loop over two digest lists: core/duplicate_analysis/check_duplicates_utils.py:166-170
      and duplicate_analysis/check_duplicates_utils.py:150-154. */
  method CompareHashing(h1: seq<string>, h2: seq<string>) returns (dups: seq<nat>)
    ensures forall i: nat :: i in dups <==> i < |h1| && exists j: nat :: j < |h2| && h1[i] == h2[j]
    ensures forall a :: 0 <= a < |dups| ==> dups[a] < |h1|
    ensures forall a, b :: 0 <= a < b < |dups| ==> dups[a] <= dups[b]
    ensures Distinct(h2) ==> forall a, b :: 0 <= a < b < |dups| ==> dups[a] < dups[b]
    ensures dups == Table(HashMatch(h1, h2), |h1|, |h2|)
  {
    ghost var matches := HashMatch(h1, h2);
    dups := [];
    var i := 0;
    while i < |h1|
      invariant 0 <= i <= |h1|
      invariant dups == Table(matches, i, |h2|)
    {
      var j := 0;
      while j < |h2|
        invariant 0 <= j <= |h2|
        invariant dups == Table(matches, i, |h2|) + Row(matches, i, j)
      {
        if h1[i] == h2[j] {
          dups := dups + [i];
        }
        j := j + 1;
      }
      i := i + 1;
    }
    TableMembers(matches, |h1|, |h2|);
    TableSorted(matches, |h1|, |h2|);
    forall x: nat ensures x in dups <==> x < |h1| && exists j: nat :: j < |h2| && h1[x] == h2[j] {
      if x in dups {
        var j: nat :| j < |h2| && matches(x, j);
      }
      if x < |h1| && exists j: nat :: j < |h2| && h1[x] == h2[j] {
        var j: nat :| j < |h2| && h1[x] == h2[j];
        assert matches(x, j);
      }
    }
    if Distinct(h2) {
      TableStrict(matches, |h1|, |h2|);
    }
  }
}
