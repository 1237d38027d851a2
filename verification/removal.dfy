/** remove_duplicates end to end: compare the target file with the source
    file, then keep, in every dataset the comparison retrieved from the
    target, the records the comparison did not report. Both revisions as
    written stop with a NameError; the corrected definitions are the ones
    the rest of the model uses. */
module Removal {

  import opened Outcomes
  import opened Containers
  import opened KeySets
  import opened Retrieve
  import opened Fingerprint
  import opened Pipelines
  import opened Filter
  import opened Agreement

  /** Reference: the indices below n that have no twin, ascending. */
  ghost function Survivors(n: nat, twin: nat -> bool): (r: seq<nat>)
    ensures forall t :: 0 <= t < |r| ==> r[t] < n
  {
    if n == 0 then [] else Survivors(n - 1, twin) + (if twin(n - 1) then [] else [n - 1])
  }

  /** The survivors are exactly the twinless indices below n, each once, ascending. */
  lemma {:induction false} SurvivorsFacts(n: nat, twin: nat -> bool)
    ensures forall i: nat :: i in Survivors(n, twin) <==> i < n && !twin(i)
    ensures forall t, u :: 0 <= t < u < |Survivors(n, twin)| ==>
              Survivors(n, twin)[t] < Survivors(n, twin)[u]
  {
    if n > 0 {
      SurvivorsFacts(n - 1, twin);
    }
  }

  /** The filter loop keeps exactly the survivors when the duplicate list
      names exactly the indices that have a twin. */
  lemma {:induction false} KeptAreSurvivors(n: nat, dups: seq<nat>, twin: nat -> bool)
    requires forall i: nat :: i < n ==> (i in dups <==> twin(i))
    ensures KeptIndices(n, dups) == Survivors(n, twin)
  {
    if n > 0 {
      KeptAreSurvivors(n - 1, dups, twin);
    }
  }

  /** Record i of the target has a record of the source equal to it on every key. */
  ghost predicate HasTwin(keys: seq<string>, target: map<string, Field>, source: map<string, Field>, i: nat)
    requires |keys| > 0 && keys[0] in source
  {
    exists j: nat :: j < |source[keys[0]]| && RecordsEqual(keys, target, i, source, j)
  }

  /** Record i of the target has a record of the source with an equal digest. */
  ghost predicate HasDigestTwin(h: Bytes -> Digest, keys: seq<string>, target: map<string, Field>,
                                source: map<string, Field>, i: nat)
  {
    exists j: nat :: DigestEq(h, keys, target, i, source, j)
  }

  /** The records of every retrieved dataset at the kept indices; the datasets
      all have n records, so each output dataset is the target's at the survivors. */
  lemma FilteredIsGathered(target: Hdf5File, keys: seq<string>, n: nat, dups: seq<nat>, twin: nat -> bool)
    requires forall k :: k in keys ==> k in target.fields && |target.fields[k]| == n
    requires forall i: nat :: i < n ==> (i in dups <==> twin(i))
    ensures var out := RemoveDuplicates(map k | k in keys :: target.fields[k], dups);
            && (forall k :: k in out <==> k in keys)
            && (forall k :: k in out ==> out[k] == Gather(target.fields[k], Survivors(n, twin)))
  {
    var ds := map k | k in keys :: target.fields[k];
    var out := RemoveDuplicates(ds, dups);
    KeptAreSurvivors(n, dups, twin);
    forall k | k in out ensures out[k] == Gather(target.fields[k], Survivors(n, twin)) {
      assert |out[k]| == |Survivors(n, twin)|;
    }
  }

  /** remove_duplicates of core/duplicate_analysis/check_duplicates_utils.py, corrected:
      compare with the numpy comparator, then filter the target's retrieved datasets. */
  function RemoveDuplicatesBetween(target: Hdf5File, source: Hdf5File): (r: Result<map<string, Field>>)
    requires target.Valid() && source.Valid()
    ensures r.Ok? <==> CompareFilesNumpy(target, source).Ok?
    ensures r.Ok? ==> var keys := CommonKeys(target, source);
              && |keys| > 0 && keys[0] in target.fields && keys[0] in source.fields
              && (forall k :: k in r.value <==> k in keys)
              && (forall k :: k in r.value ==> |target.fields[k]| == |target.fields[keys[0]]|)
    ensures r.Ok? ==> var keys := CommonKeys(target, source);
              forall k :: k in r.value ==>
                r.value[k] == Gather(target.fields[k],
                                     Survivors(|target.fields[keys[0]]|,
                                               (i: nat) => HasTwin(keys, target.fields, source.fields, i)))
  {
    var dups :- CompareFilesNumpy(target, source);
    var keys := CommonKeys(target, source);
    CommonKeysInBoth(target, source);
    ghost var twin := (i: nat) => HasTwin(keys, target.fields, source.fields, i);
    FilteredIsGathered(target, keys, |target.fields[keys[0]]|, dups, twin);
    Ok(RemoveDuplicates(map k | k in keys :: target.fields[k], dups))
  }

  /** remove_duplicates of duplicate_analysis/check_duplicates_utils.py, corrected:
      the same filter behind the hashing comparator. */
  function RemoveDuplicatesHashing(h: Bytes -> Digest, target: Hdf5File, source: Hdf5File)
    : (r: Result<map<string, Field>>)
    requires target.Valid() && source.Valid()
    ensures r.Ok? <==> CompareFilesHashing(h, target, source).Ok?
    ensures r.Ok? ==> var keys := CommonKeys(target, source);
              && |keys| > 0 && keys[0] in target.fields
              && (forall k :: k in r.value <==> k in keys)
              && (forall k :: k in r.value ==> k in target.fields && |target.fields[k]| == |target.fields[keys[0]]|)
    ensures r.Ok? ==> var keys := CommonKeys(target, source);
              forall k :: k in r.value ==>
                r.value[k] == Gather(target.fields[k],
                                     Survivors(|target.fields[keys[0]]|,
                                               (i: nat) => HasDigestTwin(h, keys, target.fields, source.fields, i)))
  {
    var dups :- CompareFilesHashing(h, target, source);
    var keys := CommonKeys(target, source);
    CommonKeysInBoth(target, source);
    HashingUnfold(h, target, source);
    ghost var twin := (i: nat) => HasDigestTwin(h, keys, target.fields, source.fields, i);
    FilteredIsGathered(target, keys, |target.fields[keys[0]]|, dups, twin);
    Ok(RemoveDuplicates(map k | k in keys :: target.fields[k], dups))
  }

  /** With an injective SHA-256 and one byte width per key, both revisions
      write the same deduplicated datasets. */
  lemma RemovalRevisionsAgree(h: Bytes -> Digest, target: Hdf5File, source: Hdf5File)
    requires target.Valid() && source.Valid()
    requires Injective(h)
    requires UniformWidths(CommonKeys(target, source), target.fields, source.fields)
    requires RemoveDuplicatesHashing(h, target, source).Ok?
    ensures RemoveDuplicatesBetween(target, source) == RemoveDuplicatesHashing(h, target, source)
  {
    HashingAgreesWithNumpy(h, target, source);
  }

  /** remove_duplicates of core/duplicate_analysis/check_duplicates_utils.py as written:
      the comparison it starts calls get_common_keys with keywords the function does
      not accept, so the TypeError of that call is what the removal raises. */
  function RemoveDuplicatesCoreAsWritten(target: Hdf5File, source: Hdf5File): (r: Result<map<string, Field>>)
    requires target.Valid() && source.Valid()
    ensures r.Err? && r.error == CommonKeysCoreCall(target, source).error
  {
    match CommonKeysCoreCall(target, source)
    case Err(e) => Err(e)
    case Ok(_) => Err(UndefinedName("h5"))  // not reached: the call raises on every input
  }

  /** The same removal once its get_common_keys call is corrected: the comparison
      runs, then `h5.File` names a module the file never imports. */
  function RemoveDuplicatesCoreKeysFixed(target: Hdf5File, source: Hdf5File): (r: Result<map<string, Field>>)
    requires target.Valid() && source.Valid()
    ensures r.Err?
    ensures CompareFilesNumpy(target, source).Ok? ==> r == Err(UndefinedName("h5"))
    ensures CompareFilesNumpy(target, source).Err? ==> r.error == CompareFilesNumpy(target, source).error
  {
    var _ :- CompareFilesNumpy(target, source);
    Err(UndefinedName("h5"))
  }

  /** remove_duplicates of duplicate_analysis/check_duplicates_utils.py as written:
      the call passes `filepath_1`, which is not defined, before anything runs. */
  function RemoveDuplicatesTopAsWritten(h: Bytes -> Digest, target: Hdf5File, source: Hdf5File)
    : (r: Result<map<string, Field>>)
    ensures r.Err? && r.error.UndefinedName?
  {
    Err(UndefinedName("filepath_1"))
  }

  /** Two one-record files with one common key: the corrected core removal returns a
      dataset, the written one raises the keyword TypeError, and with only that call
      corrected it raises the h5 NameError. */
  lemma CoreRemovalNeverWrites()
    ensures exists target: Hdf5File, source: Hdf5File ::
              && target.Valid() && source.Valid()
              && RemoveDuplicatesBetween(target, source).Ok?
              && RemoveDuplicatesCoreAsWritten(target, source) == Err(UnexpectedKeyword("file_1"))
              && RemoveDuplicatesCoreKeysFixed(target, source) == Err(UndefinedName("h5"))
  {
    var f := Hdf5File(["x"], map["x" := [[0 as bv8]]]);
    var g := Hdf5File(["x"], map["x" := [[1 as bv8]]]);
    assert KeepIn(f.fields.Keys, g.order) == ["x"] by {
      assert g.order[..0] == [];
    }
    SingleRecordCompares(f, g);
  }

  lemma SingleRecordCompares(f: Hdf5File, g: Hdf5File)
    requires f == Hdf5File(["x"], map["x" := [[0 as bv8]]])
    requires g == Hdf5File(["x"], map["x" := [[1 as bv8]]])
    requires CommonKeys(f, g) == ["x"]
    ensures f.Valid() && g.Valid()
    ensures CompareFilesNumpy(f, g).Ok?
  {
    var keys := CommonKeys(f, g);
    assert ShapesAgree(f.fields, keys) && ShapesAgree(g.fields, keys);
  }

  /** Two one-record files with one common key: the corrected removal returns a
      dataset, the written top-level one raises. */
  lemma TopRemovalNeverWrites(h: Bytes -> Digest)
    ensures exists target: Hdf5File, source: Hdf5File ::
              && target.Valid() && source.Valid()
              && RemoveDuplicatesHashing(h, target, source).Ok?
              && RemoveDuplicatesTopAsWritten(h, target, source).Err?
  {
    var f := Hdf5File(["x"], map["x" := [[0 as bv8]]]);
    var g := Hdf5File(["x"], map["x" := [[1 as bv8]]]);
    assert KeepIn(f.fields.Keys, g.order) == ["x"] by {
      assert g.order[..0] == [];
    }
    SingleRecordHashes(h, f, g);
  }

  lemma SingleRecordHashes(h: Bytes -> Digest, f: Hdf5File, g: Hdf5File)
    requires f == Hdf5File(["x"], map["x" := [[0 as bv8]]])
    requires g == Hdf5File(["x"], map["x" := [[1 as bv8]]])
    requires CommonKeys(f, g) == ["x"]
    ensures f.Valid() && g.Valid()
    ensures CompareFilesHashing(h, f, g).Ok?
  {
    var keys := CommonKeys(f, g);
    assert ShapesAgree(f.fields, keys) && ShapesAgree(g.fields, keys);
    var r1 := RetrieveDatasets(f.fields, keys).value;
    var r2 := RetrieveDatasets(g.fields, keys).value;
    assert r1.count == Some(1) && r2.count == Some(1);
    assert r1.datasets.order == keys && r2.datasets.order == keys;
  }
}
