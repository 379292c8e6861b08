/** Day 19: linen layout. A design is a string of stripe colours; it is
    counted by the number of ways to cut it into towels from the given
    set, with a memo of the count for each suffix. */
module Day19 {
  type Towel = seq<char>

  // The count path_counts computes, written as plain recursion: the ways
  // from index are the sum, over every end after index, of the ways from
  // end when design[index..end] is a towel. Above(index, e) is the part of
  // that sum over the ends e + 1 to |design|, the order path_counts adds
  // them in.

  function Ways(design: seq<char>, towels: set<Towel>, index: nat): nat
    decreases if index <= |design| then |design| - index else 0, 1, 0
  {
    if index > |design| then 0
    else if index == |design| then 1
    else Above(design, towels, index, index)
  }

  function Above(design: seq<char>, towels: set<Towel>, index: nat, e: nat): nat
    requires index < |design| && index <= e <= |design|
    decreases |design| - index, 0, |design| - e
  {
    if e == |design| then 0
    else
      (if design[index..e + 1] in towels then Ways(design, towels, e + 1) else 0) + Above(design, towels, index, e + 1)
  }

  // What the count means: the cuttings of a string into towels.

  function Concat(parts: seq<Towel>): seq<char>
  {
    if parts == [] then [] else parts[0] + Concat(parts[1..])
  }

  /** parts are non-empty towels that spell s, in order. */
  predicate IsSplit(parts: seq<Towel>, towels: set<Towel>, s: seq<char>)
  {
    (forall i :: 0 <= i < |parts| ==> |parts[i]| > 0 && parts[i] in towels) && Concat(parts) == s
  }

  /** A cutting is a first towel that begins s, then a cutting of the rest. */
  lemma SplitCons(parts: seq<Towel>, towels: set<Towel>, s: seq<char>)
    requires |parts| > 0
    ensures IsSplit(parts, towels, s) <==>
      0 < |parts[0]| <= |s| && parts[0] in towels && parts[0] == s[..|parts[0]|] &&
      IsSplit(parts[1..], towels, s[|parts[0]|..])
  {
    var rest := parts[1..];
    assert Concat(parts) == parts[0] + Concat(rest);
    assert forall i :: 0 <= i < |rest| ==> rest[i] == parts[i + 1];
    if 0 < |parts[0]| <= |s| && parts[0] == s[..|parts[0]|] && IsSplit(rest, towels, s[|parts[0]|..]) && parts[0] in towels {
      assert s == s[..|parts[0]|] + s[|parts[0]|..];
      forall i | 0 <= i < |parts| ensures |parts[i]| > 0 && parts[i] in towels {
        if i > 0 {
          assert parts[i] == rest[i - 1];
        }
      }
    }
    if IsSplit(parts, towels, s) {
      assert |parts[0]| > 0;
      assert s[..|parts[0]|] == parts[0];
      assert s[|parts[0]|..] == Concat(rest);
    }
  }

  lemma SplitEmpty(parts: seq<Towel>, towels: set<Towel>)
    ensures IsSplit(parts, towels, []) <==> parts == []
  {
    if parts != [] && IsSplit(parts, towels, []) {
      SplitCons(parts, towels, []);
    }
  }

  // The same recursion as Ways, collecting the cuttings themselves.

  ghost function Prefixed(t: Towel, s: set<seq<Towel>>): set<seq<Towel>>
  {
    set r | r in s :: [t] + r
  }

  ghost function Splits(design: seq<char>, towels: set<Towel>, index: nat): set<seq<Towel>>
    requires index <= |design|
    decreases |design| - index, 1, 0
  {
    if index == |design| then {[]}
    else SplitsAbove(design, towels, index, index)
  }

  ghost function SplitsAbove(design: seq<char>, towels: set<Towel>, index: nat, e: nat): set<seq<Towel>>
    requires index < |design| && index <= e <= |design|
    decreases |design| - index, 0, |design| - e
  {
    if e == |design| then {}
    else
      var t := design[index..e + 1];
      (if t in towels then Prefixed(t, Splits(design, towels, e + 1)) else {}) + SplitsAbove(design, towels, index, e + 1)
  }

  /** Putting the same towel in front of each cutting loses none. */
  lemma {:induction false} PrefixedCard(t: Towel, s: set<seq<Towel>>)
    ensures |Prefixed(t, s)| == |s|
    decreases |s|
  {
    if s != {} {
      var x :| x in s;
      var s' := s - {x};
      PrefixedCard(t, s');
      assert Prefixed(t, s) == Prefixed(t, s') + {[t] + x};
      forall y | y in s' ensures [t] + y != [t] + x {
        assert ([t] + y)[1..] == y && ([t] + x)[1..] == x;
      }
    }
  }

  /** Splits and SplitsAbove hold exactly the cuttings of design[index..];
      SplitsAbove(index, e) those whose first towel ends after e. */
  lemma {:induction false} SplitsMeaning(design: seq<char>, towels: set<Towel>, index: nat, r: seq<Towel>)
    requires index <= |design|
    ensures r in Splits(design, towels, index) <==> IsSplit(r, towels, design[index..])
    decreases |design| - index, 1, 0
  {
    if index == |design| {
      SplitEmpty(r, towels);
    } else {
      AboveMeaning(design, towels, index, index, r);
      if r == [] {
        assert Concat(r) == [];
      }
    }
  }

  lemma {:induction false} AboveMeaning(design: seq<char>, towels: set<Towel>, index: nat, e: nat, r: seq<Towel>)
    requires index < |design| && index <= e <= |design|
    ensures r in SplitsAbove(design, towels, index, e) <==>
      |r| > 0 && e - index < |r[0]| && IsSplit(r, towels, design[index..])
    decreases |design| - index, 0, |design| - e
  {
    var s := design[index..];
    if |r| > 0 {
      SplitCons(r, towels, s);
    }
    if e < |design| {
      var t := design[index..e + 1];
      AboveMeaning(design, towels, index, e + 1, r);
      assert s[..e + 1 - index] == t;
      assert s[e + 1 - index..] == design[e + 1..];
      if |r| > 0 {
        SplitsMeaning(design, towels, e + 1, r[1..]);
        if r in Prefixed(t, Splits(design, towels, e + 1)) {
          var y :| y in Splits(design, towels, e + 1) && r == [t] + y;
          assert r[1..] == y && r[0] == t;
        }
        if |r[0]| == e + 1 - index && IsSplit(r, towels, s) {
          assert r == [t] + r[1..];
        }
      }
    }
  }

  /** Every cutting in SplitsAbove(index, e) starts with a towel longer
      than e - index. */
  lemma AboveFirst(design: seq<char>, towels: set<Towel>, index: nat, e: nat, r: seq<Towel>)
    requires index < |design| && index <= e <= |design|
    requires r in SplitsAbove(design, towels, index, e)
    ensures |r| > 0 && e - index < |r[0]|
  {
    AboveMeaning(design, towels, index, e, r);
  }

  /** The cuttings that start with design[index..e + 1] and those whose
      first towel is longer are apart. */
  lemma AboveApart(design: seq<char>, towels: set<Towel>, index: nat, e: nat)
    requires index <= e < |design|
    ensures Prefixed(design[index..e + 1], Splits(design, towels, e + 1)) * SplitsAbove(design, towels, index, e + 1) == {}
  {
    var t := design[index..e + 1];
    var rest := Splits(design, towels, e + 1);
    var here := Prefixed(t, rest);
    var later := SplitsAbove(design, towels, index, e + 1);
    forall r | r in here ensures r !in later {
      var y :| y in rest && r == [t] + y;
      assert r[0] == t;
      AboveMeaning(design, towels, index, e + 1, r);
    }
  }

  /** Ways counts the cuttings: Ways(index) is the number of ways to cut
      design[index..] into towels. */
  lemma {:induction false} WaysCount(design: seq<char>, towels: set<Towel>, index: nat)
    requires index <= |design|
    ensures Ways(design, towels, index) == |Splits(design, towels, index)|
    decreases |design| - index, 1, 0
  {
    if index < |design| {
      AboveCount(design, towels, index, index);
    }
  }

  lemma {:induction false} AboveCount(design: seq<char>, towels: set<Towel>, index: nat, e: nat)
    requires index < |design| && index <= e <= |design|
    ensures Above(design, towels, index, e) == |SplitsAbove(design, towels, index, e)|
    decreases |design| - index, 0, |design| - e
  {
    if e < |design| {
      var t := design[index..e + 1];
      AboveCount(design, towels, index, e + 1);
      var later := SplitsAbove(design, towels, index, e + 1);
      if t in towels {
        var here := Prefixed(t, Splits(design, towels, e + 1));
        WaysCount(design, towels, e + 1);
        PrefixedCard(t, Splits(design, towels, e + 1));
        AboveApart(design, towels, index, e);
        assert |here + later| == |here| + |later|;
      }
    }
  }

  /** Some cutting of design into towels exists. */
  ghost predicate Makeable(design: seq<char>, towels: set<Towel>)
  {
    exists r :: IsSplit(r, towels, design)
  }

  /** A design can be made exactly when Ways from 0 is positive. */
  lemma Solvable(design: seq<char>, towels: set<Towel>)
    ensures Ways(design, towels, 0) > 0 <==> Makeable(design, towels)
  {
    WaysCount(design, towels, 0);
    assert design[0..] == design;
    if Ways(design, towels, 0) > 0 {
      var r :| r in Splits(design, towels, 0);
      SplitsMeaning(design, towels, 0, r);
    }
    if r :| IsSplit(r, towels, design) {
      SplitsMeaning(design, towels, 0, r);
    }
  }

  /** The memo holds only true counts. */
  ghost predicate Memo(design: seq<char>, towels: set<Towel>, seen: map<nat, nat>)
  {
    forall k :: k in seen ==> seen[k] == Ways(design, towels, k)
  }

  /** path_counts: the ways from index, read from the memo when it is
      there, and otherwise computed by summing over the ends from the
      last down and then stored. */
  method PathCounts(index: nat, design: seq<char>, towels: set<Towel>, seen: map<nat, nat>)
    returns (combinations: nat, seen': map<nat, nat>)
    requires Memo(design, towels, seen)
    ensures combinations == Ways(design, towels, index)
    ensures Memo(design, towels, seen') && index in seen' && seen.Keys <= seen'.Keys
    decreases if index <= |design| then |design| - index else 0
  {
    if index in seen {
      return seen[index], seen;
    }
    seen' := seen;
    if index > |design| {
      combinations := 0;
    } else if index == |design| {
      combinations := 1;
    } else {
      combinations := 0;
      var end := |design|;
      while end > index
        invariant index <= end <= |design|
        invariant combinations == Above(design, towels, index, end)
        invariant Memo(design, towels, seen') && seen.Keys <= seen'.Keys
      {
        var slice := design[index..end];
        if slice in towels {
          var n;
          n, seen' := PathCounts(end, design, towels, seen');
          combinations := combinations + n;
        }
        end := end - 1;
      }
    }
    seen' := seen'[index := combinations];
  }

  /** The designs that can be made. */
  function SolvableCount(designs: seq<seq<char>>, towels: set<Towel>): nat
  {
    if designs == [] then 0
    else SolvableCount(designs[..|designs| - 1], towels) + (if Ways(designs[|designs| - 1], towels, 0) > 0 then 1 else 0)
  }

  /** The ways to make each design, added up. */
  function TotalWays(designs: seq<seq<char>>, towels: set<Towel>): nat
  {
    if designs == [] then 0
    else TotalWays(designs[..|designs| - 1], towels) + Ways(designs[|designs| - 1], towels, 0)
  }

  /** compute: the number of designs with at least one way to make them,
      and the total number of ways, each design with a fresh memo. */
  method Compute(towels: set<Towel>, designs: seq<seq<char>>) returns (count: nat, sum: nat)
    ensures count == SolvableCount(designs, towels) && sum == TotalWays(designs, towels)
  {
    count, sum := 0, 0;
    for i := 0 to |designs|
      invariant count == SolvableCount(designs[..i], towels)
      invariant sum == TotalWays(designs[..i], towels)
    {
      assert designs[..i + 1][..i] == designs[..i];
      var n, _ := PathCounts(0, designs[i], towels, map[]);
      if n > 0 {
        count := count + 1;
      }
      sum := sum + n;
    }
    assert designs[..|designs|] == designs;
  }

  /** The solvable count is the number of designs that have a cutting. */
  lemma {:induction false} SolvableCountMeaning(designs: seq<seq<char>>, towels: set<Towel>)
    ensures SolvableCount(designs, towels) == |set i | 0 <= i < |designs| && Makeable(designs[i], towels)|
  {
    var cut := set i | 0 <= i < |designs| && Makeable(designs[i], towels);
    if designs != [] {
      var n := |designs| - 1;
      var front := designs[..n];
      SolvableCountMeaning(front, towels);
      var cut' := set i | 0 <= i < |front| && Makeable(front[i], towels);
      assert forall i :: 0 <= i < n ==> front[i] == designs[i];
      Solvable(designs[n], towels);
      if Makeable(designs[n], towels) {
        assert cut == cut' + {n};
      } else {
        assert cut == cut';
      }
    } else {
      assert cut == {};
    }
  }
}
