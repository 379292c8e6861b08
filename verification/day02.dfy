/** Day 2: a report (a list of levels) is safe when it moves in one strict
    direction with steps of at most 3; with the dampener, a report also counts
    when removing a single level makes it safe. */
module Day02 {
  import opened Common

  datatype Ordering = Less | Equal | Greater

  function Cmp(a: nat, b: nat): Ordering
  {
    if a < b then Less else if a == b then Equal else Greater
  }

  function AbsDiff(a: nat, b: nat): nat
  {
    if a >= b then a - b else b - a
  }

  /** The safety test: the first pair fixes a non-equal direction and every
      consecutive pair keeps that direction and differs by at most 3. The
      source reads list[1], so a report needs two levels. */
  predicate Safe(list: seq<nat>)
    requires |list| >= 2
  {
    Cmp(list[1], list[0]) != Equal &&
    forall i :: 1 <= i < |list| ==>
      AbsDiff(list[i], list[i - 1]) <= 3 && Cmp(list[i], list[i - 1]) == Cmp(list[1], list[0])
  }

  /** The index loop with early returns that decides safety. */
  method IsSafe(list: seq<nat>) returns (safe: bool)
    requires |list| >= 2
    ensures safe <==> Safe(list)
  {
    var direction := Cmp(list[1], list[0]);
    if direction == Equal {
      return false;
    }
    var i := 1;
    while i < |list|
      invariant 1 <= i <= |list|
      invariant forall k :: 1 <= k < i ==>
        AbsDiff(list[k], list[k - 1]) <= 3 && Cmp(list[k], list[k - 1]) == direction
    {
      var prev := list[i - 1];
      var val := list[i];
      if AbsDiff(val, prev) > 3 || Cmp(val, prev) != direction {
        return false;
      }
      i := i + 1;
    }
    return true;
  }

  /** Reference definition: strictly increasing or strictly decreasing with every
      step between 1 and 3. */
  predicate Gradual(list: seq<nat>)
  {
    (forall i :: 1 <= i < |list| ==> list[i - 1] < list[i] <= list[i - 1] + 3) ||
    (forall i :: 1 <= i < |list| ==> list[i] < list[i - 1] <= list[i] + 3)
  }

  lemma SafeIsGradual(list: seq<nat>)
    requires |list| >= 2
    ensures Safe(list) <==> Gradual(list)
  {
    if Gradual(list) {
      if list[0] < list[1] {
        assert forall i :: 1 <= i < |list| ==> list[i - 1] < list[i] <= list[i - 1] + 3;
      } else {
        assert forall i :: 1 <= i < |list| ==> list[i] < list[i - 1] <= list[i] + 3;
      }
    }
    if Safe(list) {
      if Cmp(list[1], list[0]) == Greater {
        assert forall i :: 1 <= i < |list| ==> list[i - 1] < list[i] <= list[i - 1] + 3;
      } else {
        assert forall i :: 1 <= i < |list| ==> list[i] < list[i - 1] <= list[i] + 3;
      }
    }
  }

  /** The list with the level at index k removed (Vec::remove). */
  function RemoveAt(list: seq<nat>, k: nat): (r: seq<nat>)
    requires k < |list|
    ensures |r| == |list| - 1
    ensures forall i :: 0 <= i < |r| ==> r[i] == if i < k then list[i] else list[i + 1]
  {
    list[..k] + list[k + 1..]
  }

  /** The brute-force dampener: the original report (index -1) or one with a
      single level removed is safe. The candidates are tried in order and the
      first safe one stops the search, so removals (which leave a report one
      shorter) are only ever evaluated when the original is unsafe; they need
      at least two remaining levels. */
  predicate DampenedSafe(list: seq<nat>)
    requires |list| >= 2
    requires Safe(list) || |list| >= 3
  {
    Safe(list) || exists k :: 0 <= k < |list| && Safe(RemoveAt(list, k))
  }

  /** A contiguous part of a gradual report is gradual. */
  lemma GradualSlice(list: seq<nat>, lo: nat, hi: nat)
    requires lo <= hi <= |list| && Gradual(list)
    ensures Gradual(list[lo..hi])
  {
    var s := list[lo..hi];
    if forall i :: 1 <= i < |list| ==> list[i - 1] < list[i] <= list[i - 1] + 3 {
      forall i | 1 <= i < |s| ensures s[i - 1] < s[i] <= s[i - 1] + 3 {
        assert s[i - 1] == list[lo + i - 1] && s[i] == list[lo + i];
      }
    } else {
      forall i | 1 <= i < |s| ensures s[i] < s[i - 1] <= s[i] + 3 {
        assert s[i - 1] == list[lo + i - 1] && s[i] == list[lo + i];
      }
    }
  }

  /** Removing the first level of a safe report of three or more levels keeps it
      safe, and so does removing the last one. */
  lemma SafeDropEnds(list: seq<nat>)
    requires |list| >= 3 && Safe(list)
    ensures Safe(RemoveAt(list, 0)) && Safe(RemoveAt(list, |list| - 1))
  {
    SafeIsGradual(list);
    assert RemoveAt(list, 0) == list[1..|list|];
    assert RemoveAt(list, |list| - 1) == list[0..|list| - 1];
    GradualSlice(list, 1, |list|);
    GradualSlice(list, 0, |list| - 1);
    SafeIsGradual(RemoveAt(list, 0));
    SafeIsGradual(RemoveAt(list, |list| - 1));
  }

  /** The indices of the safe reports. */
  ghost function SafeIndices(reports: seq<seq<nat>>): set<nat>
    requires forall r :: r in reports ==> |r| >= 2
  {
    set i: nat | i < |reports| && Safe(reports[i])
  }

  /** The indices of the reports safe with the dampener. */
  ghost function DampenedIndices(reports: seq<seq<nat>>): set<nat>
    requires forall r :: r in reports ==> |r| >= 2 && (Safe(r) || |r| >= 3)
  {
    set i: nat | i < |reports| && DampenedSafe(reports[i])
  }

  lemma SafeIndicesCons(reports: seq<seq<nat>>)
    requires reports != [] && forall r :: r in reports ==> |r| >= 2
    ensures SafeIndices(reports) ==
      (if Safe(reports[0]) then {0} else {}) + set i | i in SafeIndices(reports[1..]) :: i + 1
  {
    var rest := reports[1..];
    forall i: nat | i < |rest| ensures rest[i] == reports[i + 1] {
    }
    forall i | i in SafeIndices(reports) && i > 0 ensures i in set j | j in SafeIndices(rest) :: j + 1 {
      assert i - 1 in SafeIndices(rest);
    }
  }

  lemma DampenedIndicesCons(reports: seq<seq<nat>>)
    requires reports != [] && forall r :: r in reports ==> |r| >= 2 && (Safe(r) || |r| >= 3)
    ensures DampenedIndices(reports) ==
      (if DampenedSafe(reports[0]) then {0} else {}) + set i | i in DampenedIndices(reports[1..]) :: i + 1
  {
    var rest := reports[1..];
    forall i: nat | i < |rest| ensures rest[i] == reports[i + 1] {
    }
    forall i | i in DampenedIndices(reports) && i > 0 ensures i in set j | j in DampenedIndices(rest) :: j + 1 {
      assert i - 1 in DampenedIndices(rest);
    }
  }

  /** Part 1 counts the safe reports. */
  function CountSafe(reports: seq<seq<nat>>): (n: nat)
    requires forall r :: r in reports ==> |r| >= 2
    ensures n == |SafeIndices(reports)| <= |reports|
  {
    if reports == [] then 0
    else
      SafeIndicesCons(reports);
      ShiftCard(SafeIndices(reports[1..]));
      (if Safe(reports[0]) then 1 else 0) + CountSafe(reports[1..])
  }

  /** Part 2 counts the reports that are safe with the dampener. */
  function CountDampened(reports: seq<seq<nat>>): (n: nat)
    requires forall r :: r in reports ==> |r| >= 2 && (Safe(r) || |r| >= 3)
    ensures n == |DampenedIndices(reports)| <= |reports|
  {
    if reports == [] then 0
    else
      assert reports[0] in reports;
      DampenedIndicesCons(reports);
      ShiftCard(DampenedIndices(reports[1..]));
      (if DampenedSafe(reports[0]) then 1 else 0) + CountDampened(reports[1..])
  }

  /** Every report safe without the dampener is safe with it. */
  lemma {:induction false} CountSafeAtMostDampened(reports: seq<seq<nat>>)
    requires forall r :: r in reports ==> |r| >= 2 && (Safe(r) || |r| >= 3)
    ensures CountSafe(reports) <= CountDampened(reports)
    decreases |reports|
  {
    if reports != [] {
      assert reports[0] in reports;
      CountSafeAtMostDampened(reports[1..]);
    }
  }
}
