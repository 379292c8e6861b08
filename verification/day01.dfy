/** Day 1: distance between two location lists (pairing them smallest to
    smallest) and their similarity score (each left value weighted by how often
    it occurs in the right list). The embedded lists are parameters here. */
module Day01 {
  import opened Common

  predicate SortedAsc(s: seq<nat>)
  {
    forall i, j :: 0 <= i < j < |s| ==> s[i] <= s[j]
  }

  /** Inserts x into an ascending list. */
  function Insert(x: nat, s: seq<nat>): (r: seq<nat>)
    requires SortedAsc(s)
    ensures SortedAsc(r) && multiset(r) == multiset(s) + multiset{x}
  {
    if s == [] then [x]
    else if x <= s[0] then
      ConsSorted(x, s);
      [x] + s
    else
      var t := Insert(x, s[1..]);
      assert s == [s[0]] + s[1..];
      LowerBound(s[0], x, s[1..], t);
      ConsSorted(s[0], t);
      [s[0]] + t
  }

  lemma ConsSorted(a: nat, t: seq<nat>)
    requires SortedAsc(t) && forall k :: 0 <= k < |t| ==> a <= t[k]
    ensures SortedAsc([a] + t)
  {
  }

  /** A lower bound of x and of every element of rest bounds every element of a
      rearrangement of rest with x added. */
  lemma LowerBound(a: nat, x: nat, rest: seq<nat>, t: seq<nat>)
    requires a <= x && (forall k :: 0 <= k < |rest| ==> a <= rest[k])
    requires multiset(t) == multiset(rest) + multiset{x}
    ensures forall k :: 0 <= k < |t| ==> a <= t[k]
  {
    forall k | 0 <= k < |t| ensures a <= t[k] {
      assert t[k] in multiset(t);
      if t[k] != x {
        assert t[k] in multiset(rest);
        var j :| 0 <= j < |rest| && rest[j] == t[k];
      }
    }
  }

  /** The ascending sort the solution applies to each list before pairing. */
  function SortList(s: seq<nat>): (r: seq<nat>)
    ensures SortedAsc(r) && multiset(r) == multiset(s)
  {
    if s == [] then []
    else
      assert s == s[..|s| - 1] + [s[|s| - 1]];
      Insert(s[|s| - 1], SortList(s[..|s| - 1]))
  }

  function AbsDiff(a: nat, b: nat): nat
  {
    if a >= b then a - b else b - a
  }

  /** Sum of |a_i - b_i| over the index-paired elements; zip stops at the
      shorter list. */
  function PairedDistance(a: seq<nat>, b: seq<nat>): nat
  {
    if a == [] || b == [] then 0 else AbsDiff(a[0], b[0]) + PairedDistance(a[1..], b[1..])
  }

  /** Part 1: sort both lists ascending and add up the paired distances. */
  function Distance(list1: seq<nat>, list2: seq<nat>): nat
  {
    PairedDistance(SortList(list1), SortList(list2))
  }

  /** Two ascending lists with the same elements start with the same one. */
  lemma SortedHeads(a: seq<nat>, b: seq<nat>)
    requires SortedAsc(a) && SortedAsc(b) && multiset(a) == multiset(b) && a != [] && b != []
    ensures a[0] == b[0]
  {
    assert a[0] in multiset(b) by { assert a[0] in multiset(a); }
    assert b[0] in multiset(a) by { assert b[0] in multiset(b); }
    var i :| 0 <= i < |b| && b[i] == a[0];
    var j :| 0 <= j < |a| && a[j] == b[0];
    assert b[0] <= b[i] == a[0];
    assert a[0] <= a[j] == b[0];
  }

  /** An ascending list is determined by its multiset of elements. */
  lemma {:induction false} SortedUnique(a: seq<nat>, b: seq<nat>)
    requires SortedAsc(a) && SortedAsc(b) && multiset(a) == multiset(b)
    ensures a == b
    decreases |a|
  {
    if a != [] {
      assert |b| == |multiset(b)| == |multiset(a)| == |a|;
      SortedHeads(a, b);
      assert a == [a[0]] + a[1..];
      assert b == [b[0]] + b[1..];
      assert multiset(a[1..]) == multiset(b[1..]) by {
        calc {
          multiset(a[1..]);
          multiset(a) - multiset{a[0]};
          multiset(b) - multiset{b[0]};
          multiset(b[1..]);
        }
      }
      SortedUnique(a[1..], b[1..]);
    }
  }

  lemma {:induction false} PairedDistanceSelf(a: seq<nat>)
    ensures PairedDistance(a, a) == 0
    decreases |a|
  {
    if a != [] {
      PairedDistanceSelf(a[1..]);
    }
  }

  /** If the right list is a rearrangement of the left one, the distance is 0. */
  lemma PermutationDistanceZero(list1: seq<nat>, list2: seq<nat>)
    requires multiset(list1) == multiset(list2)
    ensures Distance(list1, list2) == 0
  {
    SortedUnique(SortList(list1), SortList(list2));
    PairedDistanceSelf(SortList(list1));
  }

  /** Part 2, first step: how often each value occurs in the right list, built by
      folding over the list and bumping the entry for each value. */
  function CountMap(list2: seq<nat>): (m: map<nat, nat>)
    ensures forall v :: v in m <==> v in multiset(list2)
    ensures forall v :: v in m ==> m[v] == multiset(list2)[v]
  {
    if list2 == [] then map[]
    else
      var rest := list2[..|list2| - 1];
      var v := list2[|list2| - 1];
      assert list2 == rest + [v];
      var m := CountMap(rest);
      m[v := (if v in m then m[v] else 0) + 1]
  }

  /** Part 2: each left value times its count in the right list, absent values
      counting 0. */
  function Similarity(list1: seq<nat>, counts: map<nat, nat>): nat
  {
    if list1 == [] then 0
    else
      var left := list1[0];
      left * (if left in counts then counts[left] else 0) + Similarity(list1[1..], counts)
  }

  /** How much one left value scores against the right list, pair by pair. */
  function PairScore(left: nat, list2: seq<nat>): nat
  {
    if list2 == [] then 0 else (if list2[0] == left then left else 0) + PairScore(left, list2[1..])
  }

  /** Reference definition: sum over all (left, right) pairs with equal values. */
  function PairwiseSimilarity(list1: seq<nat>, list2: seq<nat>): nat
  {
    if list1 == [] then 0 else PairScore(list1[0], list2) + PairwiseSimilarity(list1[1..], list2)
  }

  lemma {:induction false} PairScoreIsCount(left: nat, list2: seq<nat>)
    ensures PairScore(left, list2) == left * multiset(list2)[left]
    decreases |list2|
  {
    if list2 != [] {
      var rest := list2[1..];
      assert list2 == [list2[0]] + rest;
      assert multiset(list2) == multiset{list2[0]} + multiset(rest);
      PairScoreIsCount(left, rest);
      var ms: multiset<nat> := multiset(rest);
      var c := ms[left];
      if list2[0] == left {
        assert multiset(list2)[left] == c + 1;
        MulSucc(left, c);
      } else {
        assert multiset(list2)[left] == c;
      }
    }
  }

  /** The count-map similarity equals the pairwise reference definition. */
  lemma {:induction false} SimilarityIsPairwise(list1: seq<nat>, list2: seq<nat>)
    ensures Similarity(list1, CountMap(list2)) == PairwiseSimilarity(list1, list2)
    decreases |list1|
  {
    if list1 != [] {
      PairScoreIsCount(list1[0], list2);
      SimilarityIsPairwise(list1[1..], list2);
    }
  }
}
