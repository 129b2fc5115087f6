/** Counting the elements of lists without repeats. */
module Distinct {

  predicate NoRepeats(list: seq<nat>) {
    forall i, j :: 0 <= i < j < |list| ==> list[i] != list[j]
  }

  function Elements(list: seq<nat>): (r: set<nat>)
    ensures forall x :: x in r <==> x in list
  {
    if list == [] then {} else Elements(list[..|list| - 1]) + {list[|list| - 1]}
  }

  lemma {:induction false} DistinctElements(list: seq<nat>)
    requires NoRepeats(list)
    ensures |Elements(list)| == |list|
  {
    if list != [] {
      DistinctElements(list[..|list| - 1]);
    }
  }

  function Below(n: nat): (r: set<nat>)
    ensures |r| == n && forall x: nat :: x in r <==> x < n
  {
    if n == 0 then {} else Below(n - 1) + {n - 1}
  }

  lemma {:induction false} SubsetSize(a: set<nat>, b: set<nat>)
    requires a <= b
    ensures |a| <= |b| && (|a| == |b| ==> a == b)
  {
    if a != {} {
      var x :| x in a;
      SubsetSize(a - {x}, b - {x});
    }
  }

  lemma ElementsBelow(list: seq<nat>, n: nat)
    requires forall i :: 0 <= i < |list| ==> list[i] < n
    ensures Elements(list) <= Below(n)
  {
  }

  /** A list of distinct numbers below n has at most n entries. */
  lemma DistinctFit(list: seq<nat>, n: nat)
    requires NoRepeats(list) && forall i :: 0 <= i < |list| ==> list[i] < n
    ensures |list| <= n
    ensures |list| == n ==> Elements(list) == Below(n)
  {
    DistinctElements(list);
    ElementsBelow(list, n);
    SubsetSize(Elements(list), Below(n));
  }

  /** It has exactly n only if it has them all. */
  lemma DistinctBelow(list: seq<nat>, n: nat)
    requires NoRepeats(list) && forall i :: 0 <= i < |list| ==> list[i] < n
    ensures |list| == n <==> forall x: nat :: x < n ==> x in list
  {
    DistinctFit(list, n);
    if |list| == n {
      forall x: nat | x < n ensures x in list {
        assert x in Below(n);
      }
    }
    if forall x: nat :: x < n ==> x in list {
      DistinctElements(list);
      assert Below(n) <= Elements(list);
      SubsetSize(Below(n), Elements(list));
    }
  }
}
