/** The two comparators agree: with an injective SHA-256 and records of one
    byte width per key, the hashing comparator, whenever it does not raise,
    returns exactly the list the numpy comparator returns. */
module Agreement {

  import opened Outcomes
  import opened Containers
  import opened KeySets
  import opened Retrieve
  import opened Fingerprint
  import opened Scan
  import opened Comparators
  import opened Pipelines

  /** Concatenations of pieces with equal widths are equal exactly when the pieces are. */
  lemma {:induction false} ConcatEqIff(order: seq<string>, d1: map<string, Field>, i: nat,
                                       d2: map<string, Field>, j: nat)
    requires forall k :: k in order ==> k in d1 && k in d2 && i < |d1[k]| && j < |d2[k]|
    requires forall k :: k in order ==> |d1[k][i]| == |d2[k][j]|
    ensures Concat(order, d1, i) == Concat(order, d2, j) <==>
            forall k :: k in order ==> d1[k][i] == d2[k][j]
  {
    if |order| > 0 {
      var a, b := d1[order[0]][i], d2[order[0]][j];
      var ra, rb := Concat(order[1..], d1, i), Concat(order[1..], d2, j);
      ConcatEqIff(order[1..], d1, i, d2, j);
      if a + ra == b + rb {
        assert a == (a + ra)[..|a|] == (b + rb)[..|b|] == b;
        assert ra == (a + ra)[|a|..] == (b + rb)[|b|..] == rb;
      }
      forall k | k in order ensures k == order[0] || k in order[1..] {
        var u :| 0 <= u < |order| && order[u] == k;
        if u > 0 { assert order[1..][u - 1] == k; }
      }
    }
  }

  /** Without equal widths the digest input loses the field boundaries: two
      records that differ field by field feed SHA-256 the same bytes. */
  lemma ConcatLosesBoundaries()
    ensures exists order: seq<string>, d1: map<string, Field>, d2: map<string, Field> ::
              && (forall k :: k in order ==> k in d1 && k in d2 && 0 < |d1[k]| && 0 < |d2[k]|)
              && Concat(order, d1, 0) == Concat(order, d2, 0)
              && !RecordsEqual(order, d1, 0, d2, 0)
  {
    var order := ["a", "b"];
    var d1 := map["a" := [[1 as bv8, 2]], "b" := [[3 as bv8]]];
    var d2 := map["a" := [[1 as bv8]], "b" := [[2 as bv8, 3]]];
    assert order[1..] == ["b"];
    assert order[1..][1..] == [];
    assert Concat(order[1..], d1, 0) == [3];
    assert Concat(order[1..], d2, 0) == [2, 3];
    assert Concat(order, d1, 0) == [1, 2] + [3];
    assert Concat(order, d2, 0) == [1] + [2, 3];
    assert d1["a"][0] != d2["a"][0];
  }

  /** Per pair of records: equal digests exactly when np.array_equal holds on every key. */
  lemma DigestEqIffRecordsEqual(h: Bytes -> Digest, keys: seq<string>, d1: map<string, Field>, i: nat,
                                d2: map<string, Field>, j: nat)
    requires Injective(h) && UniformWidths(keys, d1, d2)
    requires forall k :: k in keys ==> k in d1 && k in d2 && i < |d1[k]| && j < |d2[k]|
    ensures DigestEq(h, keys, d1, i, d2, j) <==> RecordsEqual(keys, d1, i, d2, j)
  {
    ConcatEqIff(keys, d1, i, d2, j);
  }

  /** A hashing run that did not raise retrieved and hashed both files. */
  lemma HashingUnfold(h: Bytes -> Digest, f1: Hdf5File, f2: Hdf5File)
    requires f1.Valid() && f2.Valid()
    requires CompareFilesHashing(h, f1, f2).Ok?
    ensures RetrieveDatasets(f1.fields, CommonKeys(f1, f2)).Ok?
    ensures RetrieveDatasets(f2.fields, CommonKeys(f1, f2)).Ok?
    ensures RetrieveDatasets(f1.fields, CommonKeys(f1, f2)).value.count.Some?
    ensures var r1 := RetrieveDatasets(f1.fields, CommonKeys(f1, f2)).value;
            var r2 := RetrieveDatasets(f2.fields, CommonKeys(f1, f2)).value;
            && HashDatasets(h, r1.count.value, r1.datasets).Ok?
            && HashDatasets(h, r2.count.value, r2.datasets).Ok?
            && CompareFilesHashing(h, f1, f2).value
               == Table(HashMatch(HashDatasets(h, r1.count.value, r1.datasets).value,
                                  HashDatasets(h, r2.count.value, r2.datasets).value),
                        r1.count.value, r2.count.value)
  {
  }

  /** A numpy run over files whose datasets retrieve fine does not raise. */
  lemma NumpyUnfold(f1: Hdf5File, f2: Hdf5File)
    requires f1.Valid() && f2.Valid()
    requires RetrieveDatasets(f1.fields, CommonKeys(f1, f2)).Ok?
    requires RetrieveDatasets(f2.fields, CommonKeys(f1, f2)).Ok?
    requires RetrieveDatasets(f1.fields, CommonKeys(f1, f2)).value.count.Some?
    ensures CompareFilesNumpy(f1, f2).Ok?
    ensures CompareFilesNumpy(f1, f2).value
            == Table(NumpyMatch(CommonKeys(f1, f2), f1.fields, f2.fields),
                     RetrieveDatasets(f1.fields, CommonKeys(f1, f2)).value.count.value,
                     RetrieveDatasets(f2.fields, CommonKeys(f1, f2)).value.count.value)
  {
  }

  /** compare_two_hdf5_files_hashing and compare_two_hdf5_files_numpy return the same list. */
  lemma HashingAgreesWithNumpy(h: Bytes -> Digest, f1: Hdf5File, f2: Hdf5File)
    requires f1.Valid() && f2.Valid()
    requires Injective(h)
    requires UniformWidths(CommonKeys(f1, f2), f1.fields, f2.fields)
    requires CompareFilesHashing(h, f1, f2).Ok?
    ensures CompareFilesNumpy(f1, f2).Ok?
    ensures CompareFilesNumpy(f1, f2).value == CompareFilesHashing(h, f1, f2).value
  {
    var keys := CommonKeys(f1, f2);
    KeepInDistinct(f1.fields.Keys, f2.order);
    HashingUnfold(h, f1, f2);
    NumpyUnfold(f1, f2);
    var r1 := RetrieveDatasets(f1.fields, keys).value;
    var r2 := RetrieveDatasets(f2.fields, keys).value;
    var n1, n2 := r1.count.value, r2.count.value;
    var hs1 := HashDatasets(h, n1, r1.datasets).value;
    var hs2 := HashDatasets(h, n2, r2.datasets).value;
    RetrievedDigests(h, f1, keys, r1, hs1);
    RetrievedDigests(h, f2, keys, r2, hs2);
    SameMatches(h, keys, f1.fields, f2.fields, hs1, hs2);
  }

  /** Digest lists of injectively hashed, equal-width records scan to the numpy list. */
  lemma SameMatches(h: Bytes -> Digest, keys: seq<string>, d1: map<string, Field>, d2: map<string, Field>,
                    hs1: seq<Digest>, hs2: seq<Digest>)
    requires Injective(h) && UniformWidths(keys, d1, d2)
    requires forall k :: k in keys ==> k in d1 && k in d2 && |hs1| <= |d1[k]| && |hs2| <= |d2[k]|
    requires forall i :: 0 <= i < |hs1| ==> hs1[i] == h(Concat(keys, d1, i))
    requires forall j :: 0 <= j < |hs2| ==> hs2[j] == h(Concat(keys, d2, j))
    ensures Table(NumpyMatch(keys, d1, d2), |hs1|, |hs2|) == Table(HashMatch(hs1, hs2), |hs1|, |hs2|)
  {
    forall i: nat, j: nat | i < |hs1| && j < |hs2|
      ensures NumpyMatch(keys, d1, d2)(i, j) == HashMatch(hs1, hs2)(i, j)
    {
      DigestEqIffRecordsEqual(h, keys, d1, i, d2, j);
    }
    TableExt(NumpyMatch(keys, d1, d2), HashMatch(hs1, hs2), |hs1|, |hs2|);
  }
}
