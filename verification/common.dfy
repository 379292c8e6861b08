/** Shared vocabulary for the day modules: an optional value, sums over sequences
    and sets, and walks over a neighbour relation (used by the flood fills and
    breadth-first searches). */
module Common {

  datatype Option<T> = None | Some(value: T)

  /** No element occurs twice. */
  predicate NoDuplicates<T(==)>(s: seq<T>)
  {
    forall i, j :: 0 <= i < j < |s| ==> s[i] != s[j]
  }

  /** Two repeat-free sequences with no element in common concatenate to a
      repeat-free sequence. */
  lemma DistinctConcat<T>(a: seq<T>, b: seq<T>)
    requires NoDuplicates(a) && NoDuplicates(b)
    requires forall i, j :: 0 <= i < |a| && 0 <= j < |b| ==> a[i] != b[j]
    ensures NoDuplicates(a + b)
  {
    var ab := a + b;
    forall i, j | 0 <= i < j < |ab| ensures ab[i] != ab[j] {
      if j < |a| {
        assert ab[i] == a[i] && ab[j] == a[j];
      } else if i >= |a| {
        assert ab[i] == b[i - |a|] && ab[j] == b[j - |a|];
      } else {
        assert ab[i] == a[i] && ab[j] == b[j - |a|];
      }
    }
  }

  /** A sequence without repeats has as many elements as its set. */
  lemma {:induction false} DistinctCount<T>(s: seq<T>)
    requires NoDuplicates(s)
    ensures |set x | x in s| == |s|
  {
    if s != [] {
      var init := s[..|s| - 1];
      DistinctCount(init);
      assert s == init + [s[|s| - 1]];
      assert (set x | x in s) == (set x | x in init) + {s[|s| - 1]};
    }
  }

  /** Shifting a set of indices up by one keeps its size. */
  lemma {:induction false} ShiftCard(s: set<nat>)
    ensures |set i | i in s :: i + 1| == |s|
    decreases |s|
  {
    if s != {} {
      var x :| x in s;
      var rest := s - {x};
      ShiftCard(rest);
      var shifted: set<int> := set i | i in s :: i + 1;
      var shiftedRest: set<int> := set i | i in rest :: i + 1;
      forall y | y in shifted ensures y in shiftedRest + {x + 1} {
        var i :| i in s && y == i + 1;
        if i != x {
          assert i in rest;
        }
      }
      assert x + 1 !in shiftedRest;
      assert shifted == shiftedRest + {x + 1};
      assert |shifted| == |shiftedRest| + 1;
      assert s == rest + {x};
      assert |s| == |rest| + 1;
    }
  }

  /** itertools unique: the first occurrence of each element, in order. */
  function Unique<T(==)>(s: seq<T>): (r: seq<T>)
    ensures NoDuplicates(r) && |r| <= |s|
    ensures forall i :: 0 <= i < |r| ==> r[i] in s
    ensures forall i :: 0 <= i < |s| ==> s[i] in r
  {
    if s == [] then []
    else
      var init := Unique(s[..|s| - 1]);
      var last := s[|s| - 1];
      assert s == s[..|s| - 1] + [last];
      if last in init then init else init + [last]
  }

  /** Sum of a sequence of integers, left to right. */
  function Sum(s: seq<int>): int
  {
    if s == [] then 0 else Sum(s[..|s| - 1]) + s[|s| - 1]
  }

  lemma {:induction false} SumAppend(a: seq<int>, b: seq<int>)
    ensures Sum(a + b) == Sum(a) + Sum(b)
    decreases |b|
  {
    if b == [] {
      assert a + b == a;
    } else {
      assert (a + b)[..|a + b| - 1] == a + b[..|b| - 1];
      SumAppend(a, b[..|b| - 1]);
    }
  }

  /** Sum of f over a finite set, in an unspecified order. */
  ghost function SetSum<T>(s: set<T>, f: T -> int): int
    decreases s
  {
    if s == {} then 0 else var x :| x in s; f(x) + SetSum(s - {x}, f)
  }

  /** The order in which SetSum visits the elements does not matter. */
  lemma {:induction false} SetSumRemove<T>(s: set<T>, f: T -> int, y: T)
    requires y in s
    ensures SetSum(s, f) == f(y) + SetSum(s - {y}, f)
    decreases s
  {
    var x :| x in s && SetSum(s, f) == f(x) + SetSum(s - {x}, f);
    if x != y {
      SetSumRemove(s - {x}, f, y);
      SetSumRemove(s - {y}, f, x);
      assert s - {x} - {y} == s - {y} - {x};
    }
  }

  lemma SetSumSingleton<T>(x: T, f: T -> int)
    ensures SetSum({x}, f) == f(x)
  {
    SetSumRemove({x}, f, x);
    assert {x} - {x} == {};
  }

  lemma MulSucc(k: int, m: int)
    ensures k * (m + 1) == k * m + k
  {
  }

  /** Terms between 0 and k sum to at most k times the number of terms. */
  lemma {:induction false} SetSumBound<T>(s: set<T>, f: T -> int, k: int)
    requires forall x :: x in s ==> 0 <= f(x) <= k
    ensures 0 <= SetSum(s, f) <= k * |s|
    decreases s
  {
    if s != {} {
      var x :| x in s;
      SetSumRemove(s, f, x);
      SetSumBound(s - {x}, f, k);
      MulSucc(k, |s - {x}|);
    }
  }

  /** A walk: consecutive elements are related by adj. */
  ghost predicate IsWalk<T(!new)>(adj: (T, T) -> bool, w: seq<T>)
  {
    |w| > 0 && forall i :: 0 <= i < |w| - 1 ==> adj(w[i], w[i + 1])
  }

  ghost predicate Reaches<T(!new)>(adj: (T, T) -> bool, a: T, b: T)
  {
    exists w :: IsWalk(adj, w) && w[0] == a && w[|w| - 1] == b
  }

  /** No step of adj leads out of s. */
  ghost predicate Closed<T(!new)>(adj: (T, T) -> bool, s: set<T>)
  {
    forall a, b :: a in s && adj(a, b) ==> b in s
  }

  /** A set closed under adj holds every end of a walk that starts inside it. */
  lemma {:induction false} ClosedHoldsWalk<T(!new)>(adj: (T, T) -> bool, s: set<T>, w: seq<T>)
    requires Closed(adj, s) && IsWalk(adj, w) && w[0] in s
    ensures forall i :: 0 <= i < |w| ==> w[i] in s
    decreases |w|
  {
    if |w| > 1 {
      var u := w[..|w| - 1];
      assert IsWalk(adj, u) by {
        forall i | 0 <= i < |u| - 1 ensures adj(u[i], u[i + 1]) {
          assert u[i] == w[i] && u[i + 1] == w[i + 1];
        }
      }
      ClosedHoldsWalk(adj, s, u);
      forall i | 0 <= i < |w| ensures w[i] in s {
        if i < |w| - 1 {
          assert w[i] == u[i];
        } else {
          assert w[i - 1] == u[i - 1];
          assert adj(w[i - 1], w[i]);
        }
      }
    }
  }

  lemma ClosedHoldsReachable<T(!new)>(adj: (T, T) -> bool, s: set<T>, a: T, b: T)
    requires Closed(adj, s) && a in s && Reaches(adj, a, b)
    ensures b in s
  {
    var w :| IsWalk(adj, w) && w[0] == a && w[|w| - 1] == b;
    ClosedHoldsWalk(adj, s, w);
  }

  lemma WalkExtend<T(!new)>(adj: (T, T) -> bool, a: T, b: T, c: T)
    requires Reaches(adj, a, b) && adj(b, c)
    ensures Reaches(adj, a, c)
  {
    var w :| IsWalk(adj, w) && w[0] == a && w[|w| - 1] == b;
    var w' := w + [c];
    assert IsWalk(adj, w') by {
      forall i | 0 <= i < |w'| - 1 ensures adj(w'[i], w'[i + 1]) {
        if i < |w| - 1 {
          assert w'[i] == w[i] && w'[i + 1] == w[i + 1];
        }
      }
    }
    assert w'[0] == a && w'[|w'| - 1] == c;
  }

  lemma ReachesSelf<T(!new)>(adj: (T, T) -> bool, a: T)
    ensures Reaches(adj, a, a)
  {
    assert IsWalk(adj, [a]);
  }

  /** Over a symmetric relation, a walk read backwards is a walk. */
  lemma {:induction false} ReachesSymmetric<T(!new)>(adj: (T, T) -> bool, a: T, b: T)
    requires forall x, y :: adj(x, y) ==> adj(y, x)
    requires Reaches(adj, a, b)
    ensures Reaches(adj, b, a)
  {
    var w :| IsWalk(adj, w) && w[0] == a && w[|w| - 1] == b;
    var r := seq(|w|, i requires 0 <= i < |w| => w[|w| - 1 - i]);
    assert IsWalk(adj, r) by {
      forall i | 0 <= i < |r| - 1 ensures adj(r[i], r[i + 1]) {
        var j := |w| - 2 - i;
        assert adj(w[j], w[j + 1]);
      }
    }
    assert r[0] == b && r[|r| - 1] == a;
  }

  lemma ReachesTransitive<T(!new)>(adj: (T, T) -> bool, a: T, b: T, c: T)
    requires Reaches(adj, a, b) && Reaches(adj, b, c)
    ensures Reaches(adj, a, c)
  {
    var u :| IsWalk(adj, u) && u[0] == a && u[|u| - 1] == b;
    var v :| IsWalk(adj, v) && v[0] == b && v[|v| - 1] == c;
    var w := u + v[1..];
    assert IsWalk(adj, w) by {
      forall i | 0 <= i < |w| - 1 ensures adj(w[i], w[i + 1]) {
        if i < |u| - 1 {
          assert w[i] == u[i] && w[i + 1] == u[i + 1];
        } else {
          var k := i - |u| + 1;
          assert w[i] == v[k] && w[i + 1] == v[k + 1];
        }
      }
    }
    assert w[|w| - 1] == c by {
      if |v| == 1 { assert w == u; } else { assert w[|w| - 1] == v[|v| - 1]; }
    }
  }
}
