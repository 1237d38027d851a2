/** Key-set resolution, in its two revisions: the two-file version walks
    file 2's keys in order and keeps those file 1 also has; the N-file
    version intersects the key sets of every file in a list. */
module KeySets {

  import Containers
  import opened Outcomes

  /** The keys of `keys2`, in order, that lie in `keys1`. Reference definition. */
  function KeepIn(keys1: set<string>, keys2: seq<string>): seq<string>
  {
    if |keys2| == 0 then []
    else KeepIn(keys1, keys2[..|keys2| - 1])
         + (if keys2[|keys2| - 1] in keys1 then [keys2[|keys2| - 1]] else [])
  }

  /** get_common_keys(file_1, file_2) of the two-file revision: a loop over
      file 2's keys appending those found in the set of file 1's keys. */
  method CommonKeysOrdered(keys1: set<string>, keys2: seq<string>) returns (common: seq<string>)
    ensures common == KeepIn(keys1, keys2)
    ensures forall k :: k in common <==> k in keys1 && k in keys2
    ensures |common| <= |keys2|
  {
    common := [];
    var idx := 0;
    while idx < |keys2|
      invariant 0 <= idx <= |keys2|
      invariant common == KeepIn(keys1, keys2[..idx])
    {
      assert keys2[..idx + 1][..idx] == keys2[..idx];
      if keys2[idx] in keys1 {
        common := common + [keys2[idx]];
      }
      idx := idx + 1;
    }
    assert keys2[..|keys2|] == keys2;
    KeepInMembers(keys1, keys2);
    KeepInLength(keys1, keys2);
  }

  lemma {:induction false} KeepInMembers(keys1: set<string>, keys2: seq<string>)
    ensures forall k :: k in KeepIn(keys1, keys2) <==> k in keys1 && k in keys2
  {
    if |keys2| > 0 {
      var init := keys2[..|keys2| - 1];
      KeepInMembers(keys1, init);
      assert keys2 == init + [keys2[|keys2| - 1]];
    }
  }

  lemma {:induction false} KeepInLength(keys1: set<string>, keys2: seq<string>)
    ensures |KeepIn(keys1, keys2)| <= |keys2|
  {
    if |keys2| > 0 {
      KeepInLength(keys1, keys2[..|keys2| - 1]);
    }
  }

  /** Strictly increasing positions of `sub` inside `s`. */
  ghost predicate EmbeddedAt<T>(sub: seq<T>, s: seq<T>, pos: seq<int>)
  {
    && |pos| == |sub|
    && (forall t :: 0 <= t < |pos| ==> 0 <= pos[t] < |s| && s[pos[t]] == sub[t])
    && (forall t, u :: 0 <= t < u < |pos| ==> pos[t] < pos[u])
  }

  /** The common keys keep file 2's order: they sit inside file 2's key list
      at strictly increasing positions. */
  lemma {:induction false} KeepInPreservesOrder(keys1: set<string>, keys2: seq<string>)
    ensures exists pos :: EmbeddedAt(KeepIn(keys1, keys2), keys2, pos)
  {
    if |keys2| == 0 {
      var none: seq<int> := [];
      assert KeepIn(keys1, keys2) == [];
      assert EmbeddedAt(KeepIn(keys1, keys2), keys2, none);
    } else {
      var init := keys2[..|keys2| - 1];
      var last := keys2[|keys2| - 1];
      KeepInPreservesOrder(keys1, init);
      var pos: seq<int> :| EmbeddedAt(KeepIn(keys1, init), init, pos);
      if last in keys1 {
        EmbedExtend(KeepIn(keys1, init), init, pos, last);
        assert init + [last] == keys2;
        assert KeepIn(keys1, keys2) == KeepIn(keys1, init) + [last];
        assert EmbeddedAt(KeepIn(keys1, keys2), keys2, pos + [|init|]);
      } else {
        EmbedWiden(KeepIn(keys1, init), init, pos, last);
        assert init + [last] == keys2;
        assert KeepIn(keys1, keys2) == KeepIn(keys1, init);
        assert EmbeddedAt(KeepIn(keys1, keys2), keys2, pos);
      }
    }
  }

  lemma EmbedExtend<T>(sub: seq<T>, s: seq<T>, pos: seq<int>, x: T)
    requires EmbeddedAt(sub, s, pos)
    ensures EmbeddedAt(sub + [x], s + [x], pos + [|s|])
  {
  }

  lemma EmbedWiden<T>(sub: seq<T>, s: seq<T>, pos: seq<int>, x: T)
    requires EmbeddedAt(sub, s, pos)
    ensures EmbeddedAt(sub, s + [x], pos)
  {
  }

  /** A key file 2 lists once appears at most once among the common keys. */
  lemma {:induction false} KeepInDistinct(keys1: set<string>, keys2: seq<string>)
    requires Containers.Distinct(keys2)
    ensures Containers.Distinct(KeepIn(keys1, keys2))
  {
    if |keys2| > 0 {
      var init := keys2[..|keys2| - 1];
      var last := keys2[|keys2| - 1];
      assert Containers.Distinct(init);
      KeepInDistinct(keys1, init);
      KeepInMembers(keys1, init);
      assert last !in init;
    }
  }

  /** Every key get_common_keys returns names a dataset of both files. */
  lemma CommonKeysInBoth(f1: Containers.Hdf5File, f2: Containers.Hdf5File)
    requires f1.Valid() && f2.Valid()
    ensures forall k :: k in KeepIn(f1.fields.Keys, f2.order) ==> k in f1.fields && k in f2.fields
    ensures forall k :: k in f1.fields && k in f2.fields ==> k in KeepIn(f1.fields.Keys, f2.order)
  {
    KeepInMembers(f1.fields.Keys, f2.order);
  }

  /** get_common_keys(list_of_files) of the N-file revision: the empty set for
      no files, otherwise the first file's keys intersected with each later file's. */
  function CommonKeysAll(files: seq<set<string>>): (common: set<string>)
    ensures |files| == 0 ==> common == {}
    ensures |files| > 0 ==> forall k :: k in common <==> (forall i :: 0 <= i < |files| ==> k in files[i])
  {
    if |files| == 0 then {}
    else if |files| == 1 then files[0]
    else
      var prev := CommonKeysAll(files[..|files| - 1]);
      assert forall i :: 0 <= i < |files| - 1 ==> files[..|files| - 1][i] == files[i];
      prev * files[|files| - 1]
  }

  /** The intersection is below every file's key set. */
  lemma CommonKeysAllSubset(files: seq<set<string>>, i: nat)
    requires i < |files|
    ensures CommonKeysAll(files) <= files[i]
  {
  }

  /** Reordering the file list does not change the common keys. */
  lemma CommonKeysAllOrderFree(files: seq<set<string>>, other: seq<set<string>>)
    requires multiset(files) == multiset(other)
    ensures CommonKeysAll(files) == CommonKeysAll(other)
  {
    if |files| == 0 {
      assert |other| == |multiset(other)| == 0;
    } else {
      assert |other| == |multiset(other)| == |multiset(files)| == |files|;
      forall k | k in CommonKeysAll(files)
        ensures k in CommonKeysAll(other)
      {
        forall j | 0 <= j < |other| ensures k in other[j] {
          assert other[j] in multiset(files);
          var i :| 0 <= i < |files| && files[i] == other[j];
        }
      }
      forall k | k in CommonKeysAll(other)
        ensures k in CommonKeysAll(files)
      {
        forall i | 0 <= i < |files| ensures k in files[i] {
          assert files[i] in multiset(other);
          var j :| 0 <= j < |other| && other[j] == files[i];
        }
      }
    }
  }

  /** The two revisions agree on which keys are common: for two files the
      ordered walk keeps exactly the keys of the N-file intersection. */
  lemma OrderedWalkIsIntersection(f1: Containers.Hdf5File, f2: Containers.Hdf5File)
    requires f1.Valid() && f2.Valid()
    ensures forall k :: k in KeepIn(f1.fields.Keys, f2.order) <==>
                        k in CommonKeysAll([f1.fields.Keys, f2.fields.Keys])
  {
    KeepInMembers(f1.fields.Keys, f2.order);
    var files := [f1.fields.Keys, f2.fields.Keys];
    forall k ensures k in CommonKeysAll(files) <==> k in f1.fields && k in f2.fields {
      assert files[0] == f1.fields.Keys && files[1] == f2.fields.Keys;
    }
  }

  /** get_common_keys as core/duplicate_analysis/check_duplicates_utils.py calls it:
      with keywords file_1 and file_2, against core/utils' signature, which takes
      one parameter, list_of_files. Python rejects the call before the body runs. */
  function CommonKeysCoreCall(f1: Containers.Hdf5File, f2: Containers.Hdf5File): (r: Result<seq<string>>)
    ensures r.Err? && r.error.UnexpectedKeyword?
  {
    Err(UnexpectedKeyword("file_1"))
  }

  /** Two files sharing the key "x": the written call raises where the ordered
      walk of the corrected call returns that key. */
  lemma CoreCallNeverResolves()
    ensures exists f1: Containers.Hdf5File, f2: Containers.Hdf5File ::
              && f1.Valid() && f2.Valid()
              && CommonKeysCoreCall(f1, f2).Err?
              && KeepIn(f1.fields.Keys, f2.order) == ["x"]
  {
    var f := Containers.Hdf5File(["x"], map["x" := [[0 as bv8]]]);
    assert KeepIn(f.fields.Keys, f.order) == ["x"] by {
      assert f.order[..0] == [];
    }
  }
}
