/** retrieve_datasets_from_hdf5_file: materialise the datasets named by
    `keys` and check that they share one leading dimension. */
module Retrieve {

  import opened Outcomes
  import opened Containers

  /** The record count (None when no key was given) and the materialised dict. */
  datatype Retrieved = Retrieved(count: Option<nat>, datasets: Datasets)

  /** Every key names a dataset, and all of them have the first key's record count. */
  ghost predicate ShapesAgree(file: map<string, Field>, keys: seq<string>)
  {
    && (forall k :: k in keys ==> k in file)
    && (forall i :: 0 <= i < |keys| ==> |file[keys[i]]| == |file[keys[0]]|)
  }

  /** Keys `lo..` all name datasets of `n` records. */
  ghost predicate AllHave(file: map<string, Field>, keys: seq<string>, lo: nat, n: nat)
  {
    forall i :: lo <= i < |keys| ==> keys[i] in file && |file[keys[i]]| == n
  }

  /** What the loop has built after visiting keys[..idx]. */
  ghost predicate Built(file: map<string, Field>, keys: seq<string>, idx: nat, acc: Datasets)
    requires idx <= |keys|
  {
    && acc.Valid()
    && (forall k :: k in acc.data <==> k in keys[..idx])
    && (forall k :: k in acc.data ==> k in file && acc.data[k] == file[k])
    && (Distinct(keys) ==> acc.order == keys[..idx])
  }

  /** One step of the loop per key: fetch the dataset (KeyError if absent),
      fix the count on the first key, raise on any later key whose count differs. */
  function RetrieveFrom(file: map<string, Field>, keys: seq<string>, idx: nat,
                        len: Option<nat>, acc: Datasets): (r: Result<Retrieved>)
    requires idx <= |keys|
    requires Built(file, keys, idx, acc)
    requires len.None? <==> idx == 0
    requires len.Some? ==> AllHave(file, keys[..idx], 0, len.value)
    ensures len.Some? ==> (r.Ok? <==> AllHave(file, keys, idx, len.value))
    ensures len.None? && idx < |keys| ==>
              (r.Ok? <==> keys[idx] in file && AllHave(file, keys, idx, |file[keys[idx]]|))
    ensures r.Ok? ==> (r.value.count.Some? <==> |keys| > 0)
    ensures r.Err? ==> r.error.MissingKey? || r.error.ShapeMismatch?
    ensures r.Ok? && r.value.count.Some? ==> AllHave(file, keys, 0, r.value.count.value)
    ensures r.Ok? ==> Built(file, keys, |keys|, r.value.datasets)
    decreases |keys| - idx
  {
    if idx == |keys| then
      assert keys[..idx] == keys;
      Ok(Retrieved(len, acc))
    else
      var key := keys[idx];
      assert keys[..idx + 1] == keys[..idx] + [key];
      if key !in file then Err(MissingKey(key))
      else
        var acc' := Datasets(if key in acc.data then acc.order else acc.order + [key],
                             acc.data[key := file[key]]);
        match len
        case None =>
          RetrieveFrom(file, keys, idx + 1, Some(|file[key]|), acc')
        case Some(n) =>
          if n != |file[key]| then Err(ShapeMismatch(key))
          else RetrieveFrom(file, keys, idx + 1, len, acc')
  }

  /** retrieve_datasets_from_hdf5_file(hdf5_file, keys). */
  function RetrieveDatasets(file: map<string, Field>, keys: seq<string>): (r: Result<Retrieved>)
    ensures r.Ok? <==> ShapesAgree(file, keys)
    ensures r.Err? ==> r.error.MissingKey? || r.error.ShapeMismatch?
    ensures r.Ok? ==> (r.value.count.None? <==> |keys| == 0)
    ensures r.Ok? && |keys| > 0 ==> r.value.count == Some(|file[keys[0]]|)
    ensures r.Ok? ==> forall k :: k in keys ==> |file[k]| == r.value.count.value
    ensures r.Ok? ==> r.value.datasets.Valid()
    ensures r.Ok? ==> forall k :: k in r.value.datasets.data <==> k in keys
    ensures r.Ok? ==> forall k :: k in r.value.datasets.data ==> r.value.datasets.data[k] == file[k]
    ensures r.Ok? && Distinct(keys) ==> r.value.datasets.order == keys
  {
    assert keys[..0] == [];
    var r := RetrieveFrom(file, keys, 0, None, Datasets([], map[]));
    if |keys| > 0 then
      assert r.Ok? <==> ShapesAgree(file, keys) by {
        if r.Ok? { assert AllHave(file, keys, 0, |file[keys[0]]|); }
        if ShapesAgree(file, keys) { assert AllHave(file, keys, 0, |file[keys[0]]|); }
      }
      if r.Ok? then
        assert AllHave(file, keys, 0, r.value.count.value);
        assert keys[..|keys|] == keys;
        r
      else r
    else
      r
  }
}
