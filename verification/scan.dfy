/** The list both comparators build: `for i in range(n): for j in range(m):
    if match(i, j): append(i)`. Defined once here for any match relation. */
module Scan {

  /** Row i of the double loop: i once for every j < m that matches it. */
  function Row(matches: (nat, nat) -> bool, i: nat, m: nat): seq<nat>
  {
    if m == 0 then [] else Row(matches, i, m - 1) + (if matches(i, m - 1) then [i] else [])
  }

  /** All rows i < n, in order. */
  function Table(matches: (nat, nat) -> bool, n: nat, m: nat): seq<nat>
  {
    if n == 0 then [] else Table(matches, n - 1, m) + Row(matches, n - 1, m)
  }

  /** Independent count: how many j < m match i. */
  function Count(matches: (nat, nat) -> bool, i: nat, m: nat): nat
  {
    |set j: nat | j < m && matches(i, j)|
  }

  lemma {:induction false} RowFacts(matches: (nat, nat) -> bool, i: nat, m: nat)
    ensures forall t :: 0 <= t < |Row(matches, i, m)| ==> Row(matches, i, m)[t] == i
    ensures |Row(matches, i, m)| > 0 <==> exists j: nat :: j < m && matches(i, j)
    ensures |Row(matches, i, m)| == Count(matches, i, m)
  {
    if m > 0 {
      RowFacts(matches, i, m - 1);
      var prev := set j: nat | j < m - 1 && matches(i, j);
      var cur := set j: nat | j < m && matches(i, j);
      if matches(i, m - 1) {
        assert cur == prev + {m - 1};
      } else {
        assert cur == prev;
      }
    }
  }

  /** An index is reported exactly when it is below n and some j < m matches it. */
  lemma {:induction false} TableMembers(matches: (nat, nat) -> bool, n: nat, m: nat)
    ensures forall x: nat :: x in Table(matches, n, m) <==>
                               x < n && exists j: nat :: j < m && matches(x, j)
  {
    if n > 0 {
      TableMembers(matches, n - 1, m);
      RowFacts(matches, n - 1, m);
      var row := Row(matches, n - 1, m);
      forall x: nat ensures x in row <==> x == n - 1 && exists j: nat :: j < m && matches(x, j) {
        if x in row {
          var t :| 0 <= t < |row| && row[t] == x;
        }
        if x == n - 1 && exists j: nat :: j < m && matches(x, j) {
          assert row[0] == x;
        }
      }
    }
  }

  /** Reported indices never decrease and stay below n. */
  lemma {:induction false} TableSorted(matches: (nat, nat) -> bool, n: nat, m: nat)
    ensures forall a, b :: 0 <= a < b < |Table(matches, n, m)| ==>
              Table(matches, n, m)[a] <= Table(matches, n, m)[b]
    ensures forall a :: 0 <= a < |Table(matches, n, m)| ==> Table(matches, n, m)[a] < n
  {
    if n > 0 {
      TableSorted(matches, n - 1, m);
      RowFacts(matches, n - 1, m);
      var prev := Table(matches, n - 1, m);
      var row := Row(matches, n - 1, m);
      assert Table(matches, n, m) == prev + row;
      assert forall a :: 0 <= a < |prev| ==> prev[a] < n - 1;
    }
  }

  /** Occurrences of x in s. */
  function Occ(s: seq<nat>, x: nat): nat
  {
    if |s| == 0 then 0 else Occ(s[..|s| - 1], x) + (if s[|s| - 1] == x then 1 else 0)
  }

  lemma {:induction false} OccAppend(a: seq<nat>, b: seq<nat>, x: nat)
    ensures Occ(a + b, x) == Occ(a, x) + Occ(b, x)
  {
    if |b| > 0 {
      assert (a + b)[..|a + b| - 1] == a + b[..|b| - 1];
      OccAppend(a, b[..|b| - 1], x);
    } else {
      assert a + b == a;
    }
  }

  lemma {:induction false} RowOcc(matches: (nat, nat) -> bool, r: nat, m: nat, x: nat)
    ensures Occ(Row(matches, r, m), x) == if x == r then |Row(matches, r, m)| else 0
  {
    if m > 0 {
      RowOcc(matches, r, m - 1, x);
      var tail: seq<nat> := if matches(r, m - 1) then [r] else [];
      OccAppend(Row(matches, r, m - 1), tail, x);
      assert Occ(tail, x) == if x == r then |tail| else 0 by {
        if |tail| == 1 { assert tail[..0] == []; }
      }
    }
  }

  /** Index i is reported once per j < m that matches it. */
  lemma {:induction false} TableCount(matches: (nat, nat) -> bool, n: nat, m: nat, i: nat)
    ensures Occ(Table(matches, n, m), i) == if i < n then Count(matches, i, m) else 0
  {
    if n > 0 {
      TableCount(matches, n - 1, m, i);
      RowOcc(matches, n - 1, m, i);
      RowFacts(matches, n - 1, m);
      OccAppend(Table(matches, n - 1, m), Row(matches, n - 1, m), i);
    }
  }

  /** When each i matches at most one j, no index repeats: the list strictly increases. */
  lemma {:induction false} TableStrict(matches: (nat, nat) -> bool, n: nat, m: nat)
    requires forall i: nat, j: nat, j': nat ::
               i < n && j < m && j' < m && matches(i, j) && matches(i, j') ==> j == j'
    ensures forall a, b :: 0 <= a < b < |Table(matches, n, m)| ==>
              Table(matches, n, m)[a] < Table(matches, n, m)[b]
  {
    if n > 0 {
      TableStrict(matches, n - 1, m);
      TableSorted(matches, n - 1, m);
      RowFacts(matches, n - 1, m);
      var row := Row(matches, n - 1, m);
      var last := n - 1;
      assert |row| <= 1 by {
        var js := set j: nat | j < m && matches(last, j);
        if js != {} {
          var j1 :| j1 in js;
          assert js == {j1};
        }
      }
    }
  }

  /** Two match relations that agree on the scanned range give the same list. */
  lemma {:induction false} TableExt(m1: (nat, nat) -> bool, m2: (nat, nat) -> bool, n: nat, m: nat)
    requires forall i: nat, j: nat :: i < n && j < m ==> m1(i, j) == m2(i, j)
    ensures Table(m1, n, m) == Table(m2, n, m)
  {
    if n > 0 {
      TableExt(m1, m2, n - 1, m);
      RowExt(m1, m2, n - 1, m);
    }
  }

  lemma {:induction false} RowExt(m1: (nat, nat) -> bool, m2: (nat, nat) -> bool, i: nat, m: nat)
    requires forall j: nat :: j < m ==> m1(i, j) == m2(i, j)
    ensures Row(m1, i, m) == Row(m2, i, m)
  {
    if m > 0 {
      RowExt(m1, m2, i, m - 1);
    }
  }
}
