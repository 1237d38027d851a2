/** The pure part of compare_two_hdf5_files_numpy and of the hashing
    comparators, end to end on two opened files, and the agreement of the two. */
module Pipelines {

  import opened Outcomes
  import opened Containers
  import opened KeySets
  import opened Retrieve
  import opened Fingerprint
  import opened Scan
  import opened Comparators

  /** The common keys, in file 2's order. */
  function CommonKeys(f1: Hdf5File, f2: Hdf5File): seq<string>
  {
    KeepIn(f1.fields.Keys, f2.order)
  }

  /** SHA-256 collides only on equal input. */
  ghost predicate Injective(h: Bytes -> Digest)
  {
    forall a, b :: h(a) == h(b) ==> a == b
  }

  /** Within each key, every record of both files occupies the same number of
      bytes, as happens when both files store that key with one dtype and shape. */
  ghost predicate UniformWidths(keys: seq<string>, d1: map<string, Field>, d2: map<string, Field>)
  {
    forall k, i, j :: k in keys && k in d1 && k in d2 && 0 <= i < |d1[k]| && 0 <= j < |d2[k]| ==>
      |d1[k][i]| == |d2[k][j]|
  }

  /** Record i of d1 and record j of d2 exist on `keys` and their digests are equal. */
  ghost predicate DigestEq(h: Bytes -> Digest, keys: seq<string>, d1: map<string, Field>, i: nat,
                           d2: map<string, Field>, j: nat)
  {
    && (forall k :: k in keys ==> k in d1 && i < |d1[k]|)
    && (forall k :: k in keys ==> k in d2 && j < |d2[k]|)
    && h(Concat(keys, d1, i)) == h(Concat(keys, d2, j))
  }

  /** Distinct file-2 digests give each i at most one partner j. */
  lemma HashMatchStrict(hs1: seq<Digest>, hs2: seq<Digest>)
    requires Distinct(hs2)
    ensures forall a, b :: 0 <= a < b < |Table(HashMatch(hs1, hs2), |hs1|, |hs2|)| ==>
              Table(HashMatch(hs1, hs2), |hs1|, |hs2|)[a] < Table(HashMatch(hs1, hs2), |hs1|, |hs2|)[b]
    ensures forall a :: 0 <= a < |Table(HashMatch(hs1, hs2), |hs1|, |hs2|)| ==>
              Table(HashMatch(hs1, hs2), |hs1|, |hs2|)[a] < |hs1|
  {
    var matches := HashMatch(hs1, hs2);
    forall i: nat, j: nat, j': nat | i < |hs1| && j < |hs2| && j' < |hs2| && matches(i, j) && matches(i, j')
      ensures j == j'
    {
      assert hs2[j] == hs2[j'];
    }
    TableStrict(matches, |hs1|, |hs2|);
    TableSorted(matches, |hs1|, |hs2|);
  }

  /** Concat reads only the listed keys. */
  lemma {:induction false} ConcatOnKeys(order: seq<string>, d: map<string, Field>, e: map<string, Field>, i: nat)
    requires forall k :: k in order ==> k in d && k in e && d[k] == e[k] && i < |d[k]|
    ensures Concat(order, d, i) == Concat(order, e, i)
  {
    if |order| > 0 {
      ConcatOnKeys(order[1..], d, e, i);
    }
  }

  /** The hashing loop's list, read back as digest equality of the files' records. */
  lemma HashMembers(h: Bytes -> Digest, keys: seq<string>, d1: map<string, Field>, d2: map<string, Field>,
                    hs1: seq<Digest>, hs2: seq<Digest>)
    requires forall k :: k in keys ==> k in d1 && k in d2 && |hs1| <= |d1[k]| && |hs2| <= |d2[k]|
    requires forall i :: 0 <= i < |hs1| ==> hs1[i] == h(Concat(keys, d1, i))
    requires forall j :: 0 <= j < |hs2| ==> hs2[j] == h(Concat(keys, d2, j))
    ensures forall i: nat :: i in Table(HashMatch(hs1, hs2), |hs1|, |hs2|) <==>
              i < |hs1| && exists j: nat :: j < |hs2| && DigestEq(h, keys, d1, i, d2, j)
  {
    var matches := HashMatch(hs1, hs2);
    TableMembers(matches, |hs1|, |hs2|);
    forall i: nat | i < |hs1|
      ensures i in Table(matches, |hs1|, |hs2|) <==>
              (exists j: nat :: j < |hs2| && DigestEq(h, keys, d1, i, d2, j))
    {
      if exists j: nat :: j < |hs2| && DigestEq(h, keys, d1, i, d2, j) {
        var j: nat :| j < |hs2| && DigestEq(h, keys, d1, i, d2, j);
        assert matches(i, j);
      }
      if exists j: nat :: j < |hs2| && matches(i, j) {
        var j: nat :| j < |hs2| && matches(i, j);
        assert DigestEq(h, keys, d1, i, d2, j);
      }
    }
  }

  /** The digests of retrieved datasets are the digests of the file's own records. */
  lemma RetrievedDigests(h: Bytes -> Digest, f: Hdf5File, keys: seq<string>, r: Retrieved, hs: seq<Digest>)
    requires Distinct(keys)
    requires RetrieveDatasets(f.fields, keys) == Ok(r)
    requires r.count.Some? && r.datasets.Covers(r.count.value)
    requires HashDatasets(h, r.count.value, r.datasets) == Ok(hs)
    ensures |hs| == r.count.value
    ensures forall k :: k in keys ==> k in f.fields && |hs| <= |f.fields[k]|
    ensures forall i :: 0 <= i < |hs| ==> hs[i] == h(Concat(keys, f.fields, i))
  {
    forall i | 0 <= i < |hs| ensures hs[i] == h(Concat(keys, f.fields, i)) {
      ConcatOnKeys(keys, r.datasets.data, f.fields, i);
    }
  }

  /** compare_two_hdf5_files / compare_two_hdf5_files_hashing after the files are opened. */
  function CompareFilesHashing(h: Bytes -> Digest, f1: Hdf5File, f2: Hdf5File): (r: Result<seq<nat>>)
    requires f1.Valid() && f2.Valid()
    ensures r.Ok? ==> |CommonKeys(f1, f2)| > 0 && CommonKeys(f1, f2)[0] in f1.fields
    ensures r.Ok? ==> forall a, b :: 0 <= a < b < |r.value| ==> r.value[a] < r.value[b]
    ensures r.Ok? ==> forall a :: 0 <= a < |r.value| ==> r.value[a] < |f1.fields[CommonKeys(f1, f2)[0]]|
    ensures r.Ok? ==> forall i: nat :: i in r.value <==>
              i < |f1.fields[CommonKeys(f1, f2)[0]]| &&
              exists j: nat :: DigestEq(h, CommonKeys(f1, f2), f1.fields, i, f2.fields, j)
  {
    var keys := CommonKeys(f1, f2);
    var r1 :- RetrieveDatasets(f1.fields, keys);
    var r2 :- RetrieveDatasets(f2.fields, keys);
    if r1.count.None? then Err(NoRecordCount)
    else
      var hs1 :- HashDatasets(h, r1.count.value, r1.datasets);
      var hs2 :- HashDatasets(h, r2.count.value, r2.datasets);
      HashStage(h, f1, f2, r1, r2, hs1, hs2);
      Ok(Table(HashMatch(hs1, hs2), |hs1|, |hs2|))
  }

  lemma HashStage(h: Bytes -> Digest, f1: Hdf5File, f2: Hdf5File, r1: Retrieved, r2: Retrieved,
                  hs1: seq<Digest>, hs2: seq<Digest>)
    requires f1.Valid() && f2.Valid()
    requires RetrieveDatasets(f1.fields, CommonKeys(f1, f2)) == Ok(r1)
    requires RetrieveDatasets(f2.fields, CommonKeys(f1, f2)) == Ok(r2)
    requires r1.count.Some?
    requires r1.datasets.Covers(r1.count.value) && r2.datasets.Covers(r2.count.value)
    requires HashDatasets(h, r1.count.value, r1.datasets) == Ok(hs1)
    requires HashDatasets(h, r2.count.value, r2.datasets) == Ok(hs2)
    ensures |CommonKeys(f1, f2)| > 0 && CommonKeys(f1, f2)[0] in f1.fields
    ensures |hs1| == |f1.fields[CommonKeys(f1, f2)[0]]|
    ensures forall a, b :: 0 <= a < b < |Table(HashMatch(hs1, hs2), |hs1|, |hs2|)| ==>
              Table(HashMatch(hs1, hs2), |hs1|, |hs2|)[a] < Table(HashMatch(hs1, hs2), |hs1|, |hs2|)[b]
    ensures forall a :: 0 <= a < |Table(HashMatch(hs1, hs2), |hs1|, |hs2|)| ==>
              Table(HashMatch(hs1, hs2), |hs1|, |hs2|)[a] < |hs1|
    ensures forall i: nat :: i in Table(HashMatch(hs1, hs2), |hs1|, |hs2|) <==>
              i < |hs1| && exists j: nat :: DigestEq(h, CommonKeys(f1, f2), f1.fields, i, f2.fields, j)
  {
    var keys := CommonKeys(f1, f2);
    KeepInDistinct(f1.fields.Keys, f2.order);
    RetrievedDigests(h, f1, keys, r1, hs1);
    RetrievedDigests(h, f2, keys, r2, hs2);
    HashMatchStrict(hs1, hs2);
    HashMembers(h, keys, f1.fields, f2.fields, hs1, hs2);
    forall i: nat, j: nat | DigestEq(h, keys, f1.fields, i, f2.fields, j) ensures j < |hs2| {
      assert j < |f2.fields[keys[0]]|;
    }
  }

  /** compare_two_hdf5_files_numpy after the files are opened. */
  function CompareFilesNumpy(f1: Hdf5File, f2: Hdf5File): (r: Result<seq<nat>>)
    requires f1.Valid() && f2.Valid()
    ensures r.Ok? <==> |CommonKeys(f1, f2)| > 0 &&
                       ShapesAgree(f1.fields, CommonKeys(f1, f2)) &&
                       ShapesAgree(f2.fields, CommonKeys(f1, f2))
    ensures r.Ok? ==> forall a, b :: 0 <= a < b < |r.value| ==> r.value[a] <= r.value[b]
    ensures r.Ok? ==> forall a :: 0 <= a < |r.value| ==> r.value[a] < |f1.fields[CommonKeys(f1, f2)[0]]|
    ensures r.Ok? ==>
      var keys := CommonKeys(f1, f2);
      forall i: nat :: i in r.value <==>
        i < |f1.fields[keys[0]]| &&
        exists j: nat :: j < |f2.fields[keys[0]]| && RecordsEqual(keys, f1.fields, i, f2.fields, j)
  {
    var keys := CommonKeys(f1, f2);
    var r1 :- RetrieveDatasets(f1.fields, keys);
    var r2 :- RetrieveDatasets(f2.fields, keys);
    if r1.count.None? then Err(NoRecordCount)
    else
      var n1 := r1.count.value;
      var n2 := r2.count.value;
      NumpyTableFacts(keys, f1.fields, n1, f2.fields, n2);
      TableSorted(NumpyMatch(keys, f1.fields, f2.fields), n1, n2);
      Ok(Table(NumpyMatch(keys, f1.fields, f2.fields), n1, n2))
  }
}
