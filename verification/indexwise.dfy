/** compare_indexwise_data: for each common key, check both indices against
    that key's record count, then report whether the two records are equal. */
module Indexwise {

  import opened Outcomes
  import opened Containers

  /** Both indices address a record under keys[t]. */
  ghost predicate BothOk(keys: seq<string>, d1: map<string, Field>, d2: map<string, Field>,
                         i1: int, i2: int, t: nat)
    requires t < |keys| && keys[t] in d1 && keys[t] in d2
  {
    0 <= i1 < |d1[keys[t]]| && 0 <= i2 < |d2[keys[t]]|
  }

  /** Every common key accepts both indices. */
  ghost predicate AllOk(keys: seq<string>, d1: map<string, Field>, d2: map<string, Field>, i1: int, i2: int)
    requires forall k :: k in keys ==> k in d1 && k in d2
  {
    forall t :: 0 <= t < |keys| ==> BothOk(keys, d1, d2, i1, i2, t)
  }

  /** The first key that rejects an index rejects index 1 (which is checked first). */
  ghost predicate FirstFailureIsIndex1(keys: seq<string>, d1: map<string, Field>, d2: map<string, Field>,
                                       i1: int, i2: int)
    requires forall k :: k in keys ==> k in d1 && k in d2
  {
    exists t :: 0 <= t < |keys| && !(0 <= i1 < |d1[keys[t]]|) &&
      forall u :: 0 <= u < t ==> BothOk(keys, d1, d2, i1, i2, u)
  }

  /** Dropping a first key that accepts both indices changes neither verdict. */
  lemma ShiftChecks(keys: seq<string>, d1: map<string, Field>, d2: map<string, Field>, i1: int, i2: int)
    requires |keys| > 0
    requires forall k :: k in keys ==> k in d1 && k in d2
    requires BothOk(keys, d1, d2, i1, i2, 0)
    ensures AllOk(keys, d1, d2, i1, i2) <==> AllOk(keys[1..], d1, d2, i1, i2)
    ensures FirstFailureIsIndex1(keys, d1, d2, i1, i2) <==> FirstFailureIsIndex1(keys[1..], d1, d2, i1, i2)
  {
    var rest := keys[1..];
    assert forall t :: 1 <= t < |keys| ==> rest[t - 1] == keys[t];
    if AllOk(rest, d1, d2, i1, i2) {
      forall t | 0 <= t < |keys| ensures BothOk(keys, d1, d2, i1, i2, t) {
        if t > 0 { assert BothOk(rest, d1, d2, i1, i2, t - 1); }
      }
    }
    if AllOk(keys, d1, d2, i1, i2) {
      forall t | 0 <= t < |rest| ensures BothOk(rest, d1, d2, i1, i2, t) {
        assert BothOk(keys, d1, d2, i1, i2, t + 1);
      }
    }
    if FirstFailureIsIndex1(rest, d1, d2, i1, i2) {
      var t :| 0 <= t < |rest| && !(0 <= i1 < |d1[rest[t]]|) &&
        forall u :: 0 <= u < t ==> BothOk(rest, d1, d2, i1, i2, u);
      forall u | 0 <= u < t + 1 ensures BothOk(keys, d1, d2, i1, i2, u) {
        if u > 0 { assert BothOk(rest, d1, d2, i1, i2, u - 1); }
      }
    }
    if FirstFailureIsIndex1(keys, d1, d2, i1, i2) {
      var t :| 0 <= t < |keys| && !(0 <= i1 < |d1[keys[t]]|) &&
        forall u :: 0 <= u < t ==> BothOk(keys, d1, d2, i1, i2, u);
      assert t > 0;
      forall u | 0 <= u < t - 1 ensures BothOk(rest, d1, d2, i1, i2, u) {
        assert BothOk(keys, d1, d2, i1, i2, u + 1);
      }
      assert !(0 <= i1 < |d1[rest[t - 1]]|);
    }
  }

  /** The key loop; the result lists, per key, whether the two records are equal
      (the "same" / "different" lines the source prints). */
  function CompareIndexwise(keys: seq<string>, d1: map<string, Field>, d2: map<string, Field>,
                            i1: int, i2: int): (r: Result<seq<bool>>)
    requires forall k :: k in keys ==> k in d1 && k in d2
    ensures r.Ok? <==> AllOk(keys, d1, d2, i1, i2)
    ensures r.Err? ==> r.error == InvalidIndex1 || r.error == InvalidIndex2
    ensures r == Err(InvalidIndex1) <==> FirstFailureIsIndex1(keys, d1, d2, i1, i2)
    ensures r.Ok? ==> |r.value| == |keys|
    ensures r.Ok? ==> forall t :: 0 <= t < |keys| ==>
              0 <= i1 < |d1[keys[t]]| && 0 <= i2 < |d2[keys[t]]| &&
              (r.value[t] <==> d1[keys[t]][i1] == d2[keys[t]][i2])
    decreases |keys|
  {
    if |keys| == 0 then Ok([])
    else
      var k := keys[0];
      if i1 < 0 || i1 >= |d1[k]| then
        assert !BothOk(keys, d1, d2, i1, i2, 0);
        Err(InvalidIndex1)
      else if i2 < 0 || i2 >= |d2[k]| then
        assert !BothOk(keys, d1, d2, i1, i2, 0);
        Err(InvalidIndex2)
      else
        ShiftChecks(keys, d1, d2, i1, i2);
        var rest := CompareIndexwise(keys[1..], d1, d2, i1, i2);
        if rest.Err? then rest
        else
          assert forall t :: 1 <= t < |keys| ==> keys[1..][t - 1] == keys[t];
          Ok([d1[k][i1] == d2[k][i2]] + rest.value)
  }
}
