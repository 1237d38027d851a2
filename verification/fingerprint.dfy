/** hash_datasets_of_a_single_file: one SHA-256 hex digest per record, fed
    each dataset's raw bytes in dict order, then the within-file duplicate
    check. SHA-256 itself is the parameter `h`; `sha256(a)` followed by
    `.update(b)` yields `h(a + b)`. */
module Fingerprint {

  import opened Outcomes
  import opened Containers

  /** hexdigest() strings. */
  type Digest = string

  /** Reference: record i's bytes, datasets concatenated in `order`. */
  function Concat(order: seq<string>, data: map<string, Field>, i: nat): Bytes
    requires forall k :: k in order ==> k in data && i < |data[k]|
  {
    if |order| == 0 then [] else data[order[0]][i] + Concat(order[1..], data, i)
  }

  lemma {:induction false} ConcatSnoc(order: seq<string>, data: map<string, Field>, i: nat)
    requires |order| > 0
    requires forall k :: k in order ==> k in data && i < |data[k]|
    ensures Concat(order, data, i)
            == Concat(order[..|order| - 1], data, i) + data[order[|order| - 1]][i]
  {
    if |order| > 1 {
      assert order[1..][..|order[1..]| - 1] == order[..|order| - 1][1..];
      ConcatSnoc(order[1..], data, i);
    } else {
      assert order[..0] == [];
    }
  }

  /** The encoder after the inner loop: None until the first dataset, then
      sha256(first) and one update per later dataset, kept as the bytes fed so far. */
  function Encode(order: seq<string>, data: map<string, Field>, i: nat): (e: Option<Bytes>)
    requires forall k :: k in order ==> k in data && i < |data[k]|
    ensures e.None? <==> |order| == 0
    ensures e.Some? ==> e.value == Concat(order, data, i)
  {
    if |order| == 0 then None
    else
      var init := order[..|order| - 1];
      var last := data[order[|order| - 1]][i];
      ConcatSnoc(order, data, i);
      match Encode(init, data, i)
      case None => assert init == []; Some(last)
      case Some(fed) => Some(fed + last)
  }

  /** The outer loop over indices 0..m: one digest per record, failing as
      soon as a record leaves the encoder unset. */
  function DigestsUpTo(h: Bytes -> Digest, m: nat, ds: Datasets): (r: Result<seq<Digest>>)
    requires ds.Valid() && ds.Covers(m)
    ensures r.Ok? <==> m == 0 || |ds.order| > 0
    ensures r.Err? ==> r.error == NoFields
    ensures r.Ok? ==> |r.value| == m
    ensures r.Ok? ==> forall i :: 0 <= i < m ==> r.value[i] == h(Concat(ds.order, ds.data, i))
  {
    if m == 0 then Ok([])
    else
      var prev :- DigestsUpTo(h, m - 1, ds);
      match Encode(ds.order, ds.data, m - 1)
      case None => Err(NoFields)
      case Some(fed) => Ok(prev + [h(fed)])
  }

  /** The set built from a list is as large as the list exactly when the list has no repeats. */
  lemma {:induction false} SetSizeDistinct<T>(s: seq<T>)
    ensures |set x | x in s| <= |s|
    ensures |set x | x in s| == |s| <==> Distinct(s)
  {
    if |s| > 0 {
      var init := s[..|s| - 1];
      var last := s[|s| - 1];
      SetSizeDistinct(init);
      assert s == init + [last];
      var full := set x | x in s;
      var part := set x | x in init;
      if last in init {
        assert full == part;
        var j :| 0 <= j < |init| && init[j] == last;
        assert s[j] == s[|s| - 1];
      } else {
        assert full == part + {last};
        if Distinct(s) {
          assert Distinct(init);
        }
      }
    }
  }

  /** hash_datasets_of_a_single_file(num_datapoints, datasets). */
  function HashDatasets(h: Bytes -> Digest, n: nat, ds: Datasets): (r: Result<seq<Digest>>)
    requires ds.Valid() && ds.Covers(n)
    ensures r.Ok? ==> |r.value| == n
    ensures r.Ok? ==> forall i :: 0 <= i < n ==> r.value[i] == h(Concat(ds.order, ds.data, i))
    ensures r.Ok? ==> Distinct(r.value)
    ensures n > 0 && |ds.order| == 0 ==> r == Err(NoFields)
    ensures r.Err? <==>
              n > 0 && (|ds.order| == 0 ||
                        exists i, j :: 0 <= i < j < n &&
                          h(Concat(ds.order, ds.data, i)) == h(Concat(ds.order, ds.data, j)))
  {
    var digests :- DigestsUpTo(h, n, ds);
    SetSizeDistinct(digests);
    if |set d | d in digests| != |digests| then
      assert !Distinct(digests);
      var i, j :| 0 <= i < j < |digests| && digests[i] == digests[j];
      assert h(Concat(ds.order, ds.data, i)) == h(Concat(ds.order, ds.data, j));
      Err(DuplicateWithinFile)
    else Ok(digests)
  }
}
