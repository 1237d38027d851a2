/** The filter loop of remove_duplicates: every target dataset keeps the
    records whose index the duplicate list does not mention. */
module Filter {

  import opened Containers

  /** Indices below n that `dups` does not mention, ascending. */
  function KeptIndices(n: nat, dups: seq<nat>): (r: seq<nat>)
    ensures forall t :: 0 <= t < |r| ==> r[t] < n
  {
    if n == 0 then []
    else KeptIndices(n - 1, dups) + (if n - 1 in dups then [] else [n - 1])
  }

  /** The records of x[..n] whose index `dups` does not mention, in order. */
  function Kept(x: Field, n: nat, dups: seq<nat>): Field
    requires n <= |x|
  {
    if n == 0 then []
    else Kept(x, n - 1, dups) + (if n - 1 in dups then [] else [x[n - 1]])
  }

  /** The kept indices are exactly the unlisted ones below n, strictly ascending. */
  lemma {:induction false} KeptIndicesFacts(n: nat, dups: seq<nat>)
    ensures forall t :: 0 <= t < |KeptIndices(n, dups)| ==>
              KeptIndices(n, dups)[t] < n && KeptIndices(n, dups)[t] !in dups
    ensures forall t, u :: 0 <= t < u < |KeptIndices(n, dups)| ==>
              KeptIndices(n, dups)[t] < KeptIndices(n, dups)[u]
    ensures forall i: nat :: i < n && i !in dups ==> i in KeptIndices(n, dups)
  {
    if n > 0 {
      KeptIndicesFacts(n - 1, dups);
    }
  }

  /** The records of x at positions idx, in that order. */
  function Gather(x: Field, idx: seq<nat>): (r: Field)
    requires forall t :: 0 <= t < |idx| ==> idx[t] < |x|
    ensures |r| == |idx|
    ensures forall t :: 0 <= t < |idx| ==> r[t] == x[idx[t]]
  {
    seq(|idx|, t requires 0 <= t < |idx| => x[idx[t]])
  }

  /** Filtering one dataset is gathering it at the kept indices, which depend
      only on the record count and the duplicate list. */
  lemma {:induction false} KeptIsGather(x: Field, n: nat, dups: seq<nat>)
    requires n <= |x|
    ensures forall t :: 0 <= t < |KeptIndices(n, dups)| ==> KeptIndices(n, dups)[t] < |x|
    ensures Kept(x, n, dups) == Gather(x, KeptIndices(n, dups))
  {
    KeptIndicesFacts(n, dups);
    if n > 0 {
      KeptIsGather(x, n - 1, dups);
      KeptIndicesFacts(n - 1, dups);
    }
  }

  /** The inner loop of remove_duplicates for one dataset. */
  method FilterField(x: Field, dups: seq<nat>) returns (kept: Field)
    ensures kept == Kept(x, |x|, dups)
    ensures |kept| == |KeptIndices(|x|, dups)|
    ensures forall t :: 0 <= t < |kept| ==> kept[t] == x[KeptIndices(|x|, dups)[t]]
  {
    kept := [];
    var i := 0;
    while i < |x|
      invariant 0 <= i <= |x|
      invariant kept == Kept(x, i, dups)
    {
      if i !in dups {
        kept := kept + [x[i]];
      }
      i := i + 1;
    }
    KeptIsGather(x, |x|, dups);
  }

  /** remove_duplicates: the same filter applied to every dataset of the target. */
  function RemoveDuplicates(target: map<string, Field>, dups: seq<nat>): (out: map<string, Field>)
    ensures out.Keys == target.Keys
    ensures forall k :: k in out ==> |out[k]| == |KeptIndices(|target[k]|, dups)|
    ensures forall k, t :: k in out && 0 <= t < |out[k]| ==>
              out[k][t] == target[k][KeptIndices(|target[k]|, dups)[t]]
  {
    assert forall k :: k in target ==>
             Kept(target[k], |target[k]|, dups) == Gather(target[k], KeptIndices(|target[k]|, dups)) by {
      forall k | k in target {
        KeptIsGather(target[k], |target[k]|, dups);
      }
    }
    map k | k in target :: Kept(target[k], |target[k]|, dups)
  }

  /** Records stay aligned: when all datasets have n records, every output
      dataset has the same length and position t of each comes from one source index. */
  lemma RemoveDuplicatesAligned(target: map<string, Field>, dups: seq<nat>, n: nat)
    requires forall k :: k in target ==> |target[k]| == n
    ensures forall k :: k in RemoveDuplicates(target, dups) ==>
              |RemoveDuplicates(target, dups)[k]| == |KeptIndices(n, dups)|
    ensures forall k, t :: k in target && 0 <= t < |KeptIndices(n, dups)| ==>
              RemoveDuplicates(target, dups)[k][t] == target[k][KeptIndices(n, dups)[t]]
  {
  }

  /** Exactly the listed indices below n are dropped. */
  lemma {:induction false} KeptIndicesCount(n: nat, dups: seq<nat>)
    ensures |KeptIndices(n, dups)| + |set i: nat | i < n && i in dups| == n
  {
    if n > 0 {
      KeptIndicesCount(n - 1, dups);
      var last := n - 1;
      var before := set i: nat | i < last && i in dups;
      var now := set i: nat | i < n && i in dups;
      if last in dups {
        assert now == before + {last};
      } else {
        assert now == before;
      }
    }
  }

  /** An empty duplicate list keeps every record. */
  lemma {:induction false} NoDuplicatesKeepsAll(x: Field, n: nat)
    requires n <= |x|
    ensures Kept(x, n, []) == x[..n]
  {
    if n > 0 {
      NoDuplicatesKeepsAll(x, n - 1);
      assert x[..n] == x[..n - 1] + [x[n - 1]];
    }
  }
}
