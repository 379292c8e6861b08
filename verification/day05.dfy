/** Day 5: page-ordering rules "a|b" (a must come before b) are grouped by their
    left number; an update is correctly ordered when no page has, earlier in
    the update, a page it must precede. Incorrect updates are repaired by
    rotating each offending page to just before its earliest mistake. */
module Day05 {
  import opened Common

  type Rules = map<nat, seq<nat>>

  /** The right-hand numbers of the rules whose left number is a, in rule order. */
  function Seconds(pairs: seq<(nat, nat)>, a: nat): seq<nat>
  {
    if pairs == [] then []
    else
      var last := pairs[|pairs| - 1];
      Seconds(pairs[..|pairs| - 1], a) + (if last.0 == a then [last.1] else [])
  }

  /** The fold that groups the rules: each left number maps to the list of its
      right numbers, pushed in order. */
  function GroupRules(pairs: seq<(nat, nat)>): (rules: Rules)
    ensures forall a :: a in rules <==> Seconds(pairs, a) != []
    ensures forall a :: a in rules ==> rules[a] == Seconds(pairs, a)
  {
    if pairs == [] then map[]
    else
      var rules := GroupRules(pairs[..|pairs| - 1]);
      var (a, b) := pairs[|pairs| - 1];
      rules[a := (if a in rules then rules[a] else []) + [b]]
  }

  /** b is one of a's right numbers exactly when the rule a|b is listed. */
  lemma {:induction false} SecondsMembers(pairs: seq<(nat, nat)>, a: nat, b: nat)
    ensures b in Seconds(pairs, a) <==> (a, b) in pairs
  {
    if pairs != [] {
      var init := pairs[..|pairs| - 1];
      SecondsMembers(init, a, b);
      assert pairs == init + [pairs[|pairs| - 1]];
    }
  }

  /** The numbers a page must precede (none when it has no rules). */
  function Succ(rules: Rules, n: nat): seq<nat>
  {
    if n in rules then rules[n] else []
  }

  function Elems(s: seq<nat>): set<nat>
  {
    set x | x in s
  }

  /** Page j is out of order: an earlier page is one it must precede. */
  predicate Broken(updates: seq<nat>, rules: Rules, j: nat)
    requires j < |updates|
  {
    exists k :: 0 <= k < j && updates[k] in Succ(rules, updates[j])
  }

  predicate CorrectlyOrdered(updates: seq<nat>, rules: Rules)
  {
    forall j :: 0 <= j < |updates| ==> !Broken(updates, rules, j)
  }

  /** The check walks the update, remembering the pages seen, and fails at the
      first page one of whose successors was already seen. */
  method CheckPrecedence(updates: seq<nat>, rules: Rules) returns (ok: bool)
    ensures ok <==> CorrectlyOrdered(updates, rules)
  {
    var previous: set<nat> := {};
    var i := 0;
    while i < |updates|
      invariant 0 <= i <= |updates|
      invariant previous == Elems(updates[..i])
      invariant forall j :: 0 <= j < i ==> !Broken(updates, rules, j)
    {
      var num := updates[i];
      var proceeding := Succ(rules, num);
      var orderBroken := exists p :: p in proceeding && p in previous;
      if orderBroken {
        var p :| p in proceeding && p in previous;
        assert p in updates[..i];
        var k :| 0 <= k < i && updates[..i][k] == p;
        assert updates[k] == p;
        assert Broken(updates, rules, i);
        return false;
      }
      assert updates[..i + 1] == updates[..i] + [num];
      previous := previous + {num};
      i := i + 1;
    }
    return true;
  }

  /** The first index of s holding a member of targets (Iterator::find). */
  function FirstIndex(s: seq<nat>, targets: set<nat>): (r: Option<nat>)
    ensures r.Some? ==> r.value < |s| && s[r.value] in targets &&
                        forall j :: 0 <= j < r.value ==> s[j] !in targets
    ensures r.None? ==> forall j :: 0 <= j < |s| ==> s[j] !in targets
  {
    if s == [] then None
    else if s[0] in targets then Some(0)
    else
      match FirstIndex(s[1..], targets)
      case None => None
      case Some(k) => Some(k + 1)
  }

  /** slice[m..=i].rotate_right(1): the element at i moves to m and the ones in
      between shift one place to the right. */
  function RotateRight(s: seq<nat>, m: nat, i: nat): (r: seq<nat>)
    requires m <= i < |s|
    ensures |r| == |s| && r[m] == s[i]
    ensures r[..m] == s[..m] && r[m + 1..i + 1] == s[m..i] && r[i + 1..] == s[i + 1..]
    ensures multiset(r) == multiset(s)
  {
    var r := s[..m] + [s[i]] + s[m..i] + s[i + 1..];
    assert s == s[..m] + s[m..i] + [s[i]] + s[i + 1..];
    assert r[m + 1..i + 1] == s[m..i];
    r
  }

  /** One step of the repair loop at index i: the successors of the page that
      were already seen are its mistakes; if there are any, the page is rotated
      to just before the earliest of them. */
  function SortStep(rules: Rules, u: seq<nat>, i: nat, previous: set<nat>): (r: (seq<nat>, bool))
    requires i < |u|
  {
    match FirstIndex(u, Mistakes(rules, u, i, previous))
    case Some(m) => if m <= i then (RotateRight(u, m, i), true) else (u, false)
    case None => (u, false)
  }

  /** The repair loop from index i on, carrying the working copy, the pages seen
      so far and whether any rotation happened. */
  function SortLoop(rules: Rules, u: seq<nat>, i: nat, previous: set<nat>, resorted: bool): (seq<nat>, bool)
    requires i <= |u|
    decreases |u| - i
  {
    if i == |u| then (u, resorted)
    else
      var (u', rotated) := SortStep(rules, u, i, previous);
      SortLoop(rules, u', i + 1, previous + {u[i]}, resorted || rotated)
  }

  /** sort: Some(repaired copy) if any rotation happened, None otherwise. */
  function SortResult(updates: seq<nat>, rules: Rules): Option<seq<nat>>
  {
    var (u, resorted) := SortLoop(rules, updates, 0, {}, false);
    if resorted then Some(u) else None
  }

  /** The state of the repair loop at index i, relative to the original update:
      the untouched suffix, and a prefix holding the same pages. */
  predicate LoopState(orig: seq<nat>, u: seq<nat>, i: nat, previous: set<nat>)
  {
    |u| == |orig| && i <= |u| && u[i..] == orig[i..] &&
    multiset(u[..i]) == multiset(orig[..i]) && previous == Elems(orig[..i])
  }

  lemma SameElems(a: seq<nat>, b: seq<nat>)
    requires multiset(a) == multiset(b)
    ensures Elems(a) == Elems(b)
  {
    forall x ensures x in a <==> x in multiset(a) {}
    forall x ensures x in b <==> x in multiset(b) {}
  }

  /** The mistakes of page i: its successors among the pages already seen. */
  function Mistakes(rules: Rules, u: seq<nat>, i: nat, previous: set<nat>): set<nat>
    requires i < |u|
  {
    set p | p in Succ(rules, u[i]) && p in previous
  }

  /** Page i has mistakes exactly when it is out of order, and then the earliest
      one lies before it. */
  lemma MistakesFacts(rules: Rules, orig: seq<nat>, u: seq<nat>, i: nat, previous: set<nat>)
    requires LoopState(orig, u, i, previous) && i < |u|
    ensures u[i] == orig[i]
    ensures Mistakes(rules, u, i, previous) != {} <==> Broken(orig, rules, i)
    ensures Mistakes(rules, u, i, previous) != {} ==>
      FirstIndex(u, Mistakes(rules, u, i, previous)).Some? &&
      FirstIndex(u, Mistakes(rules, u, i, previous)).value < i
  {
    assert u[i] == orig[i] by { assert u[i..][0] == orig[i..][0]; }
    var mistakes := Mistakes(rules, u, i, previous);
    SameElems(u[..i], orig[..i]);
    if Broken(orig, rules, i) {
      var k :| 0 <= k < i && orig[k] in Succ(rules, orig[i]);
      assert orig[..i][k] in orig[..i];
      assert orig[k] in mistakes;
    }
    if mistakes != {} {
      var p :| p in mistakes;
      assert p in orig[..i];
      var k :| 0 <= k < i && orig[..i][k] == p;
      assert orig[k] == p;
      assert p in u[..i];
      var k' :| 0 <= k' < i && u[..i][k'] == p;
      assert u[k'] in mistakes;
      assert FirstIndex(u, mistakes).Some? && FirstIndex(u, mistakes).value <= k';
    }
  }

  /** One step keeps the loop state, keeps the pages, and rotates exactly when
      page i is out of order. */
  lemma SortStepFacts(rules: Rules, orig: seq<nat>, u: seq<nat>, i: nat, previous: set<nat>)
    requires LoopState(orig, u, i, previous) && i < |u|
    ensures var (u', rotated) := SortStep(rules, u, i, previous);
      LoopState(orig, u', i + 1, previous + {u[i]}) && multiset(u') == multiset(u) &&
      (rotated <==> Broken(orig, rules, i))
  {
    MistakesFacts(rules, orig, u, i, previous);
    var num := u[i];
    assert orig[..i + 1] == orig[..i] + [num];
    var (u', rotated) := SortStep(rules, u, i, previous);
    assert u'[..i + 1] == u'[..i] + [u'[i]];
    if rotated {
      var m := FirstIndex(u, Mistakes(rules, u, i, previous)).value;
      assert u' == RotateRight(u, m, i);
      assert u'[..i + 1] == u[..m] + [num] + u[m..i];
      assert u[..i] == u[..m] + u[m..i];
      assert u'[i + 1..] == u[i + 1..];
    } else {
      assert u' == u;
      assert u[..i + 1] == u[..i] + [num];
    }
    assert u[i + 1..] == orig[i + 1..] by { assert u[i..][1..] == orig[i..][1..]; }
  }

  /** A rotated page lands before every one of its successors seen so far. */
  lemma SortStepPlacement(rules: Rules, orig: seq<nat>, u: seq<nat>, i: nat, previous: set<nat>)
    requires LoopState(orig, u, i, previous) && i < |u|
    requires SortStep(rules, u, i, previous).1
    ensures var u' := SortStep(rules, u, i, previous).0;
      exists m :: 0 <= m < i && u'[m] == u[i] &&
        forall j :: 0 <= j < m ==> u'[j] !in Succ(rules, u[i])
  {
    MistakesFacts(rules, orig, u, i, previous);
    var mistakes := Mistakes(rules, u, i, previous);
    var m := FirstIndex(u, mistakes).value;
    var u' := SortStep(rules, u, i, previous).0;
    assert u' == RotateRight(u, m, i);
    forall j | 0 <= j < m ensures u'[j] !in Succ(rules, u[i]) {
      assert u'[j] == u[..m][j] == u[j];
      assert u[j] !in mistakes;
      assert u[..i][j] in u[..i];
      SameElems(u[..i], orig[..i]);
    }
  }

  lemma {:induction false} SortLoopFacts(rules: Rules, orig: seq<nat>, u: seq<nat>, i: nat, previous: set<nat>, resorted: bool)
    requires LoopState(orig, u, i, previous)
    ensures var (r, res) := SortLoop(rules, u, i, previous, resorted);
      multiset(r) == multiset(u) &&
      (res <==> resorted || exists j :: i <= j < |orig| && Broken(orig, rules, j))
    decreases |u| - i
  {
    if i < |u| {
      SortStepFacts(rules, orig, u, i, previous);
      var step := SortStep(rules, u, i, previous);
      var u', rotated := step.0, step.1;
      assert SortLoop(rules, u, i, previous, resorted) == SortLoop(rules, u', i + 1, previous + {u[i]}, resorted || rotated);
      SortLoopFacts(rules, orig, u', i + 1, previous + {u[i]}, resorted || rotated);
      assert (exists j :: i <= j < |orig| && Broken(orig, rules, j)) <==>
        Broken(orig, rules, i) || exists j :: i + 1 <= j < |orig| && Broken(orig, rules, j);
    }
  }

  /** sort returns None exactly for correctly ordered updates, and otherwise a
      rearrangement of the update (of at least two pages). */
  lemma SortResultFacts(updates: seq<nat>, rules: Rules)
    ensures SortResult(updates, rules).None? <==> CorrectlyOrdered(updates, rules)
    ensures SortResult(updates, rules).Some? ==>
      multiset(SortResult(updates, rules).value) == multiset(updates) &&
      |SortResult(updates, rules).value| >= 2
  {
    assert LoopState(updates, updates, 0, {});
    SortLoopFacts(rules, updates, updates, 0, {}, false);
    if SortResult(updates, rules).Some? {
      var j :| 0 <= j < |updates| && Broken(updates, rules, j);
      assert j >= 1;
      assert |multiset(SortResult(updates, rules).value)| == |multiset(updates)|;
    }
  }

  /** The repair loop on a working copy; the caller's update is never changed. */
  method Sort(updates: seq<nat>, rules: Rules) returns (r: Option<seq<nat>>)
    ensures r == SortResult(updates, rules)
    ensures r.None? <==> CorrectlyOrdered(updates, rules)
    ensures r.Some? ==> multiset(r.value) == multiset(updates)
  {
    var u := updates;
    var previous: set<nat> := {};
    var resorted := false;
    var i := 0;
    while i < |u|
      invariant 0 <= i <= |u|
      invariant SortLoop(rules, u, i, previous, resorted) == SortLoop(rules, updates, 0, {}, false)
    {
      var num := u[i];
      var mistakes := Mistakes(rules, u, i, previous);
      var earliest := FirstIndex(u, mistakes);
      if earliest.Some? && earliest.value <= i {
        u := RotateRight(u, earliest.value, i);
        resorted := true;
      }
      previous := previous + {num};
      i := i + 1;
    }
    r := if resorted then Some(u) else None;
    SortResultFacts(updates, rules);
  }

  function Middle(u: seq<nat>): nat
    requires |u| > 0
  {
    u[(|u| - 1) / 2]
  }

  /** Part 1: the middle pages of the correctly ordered updates. */
  function OrderedMiddles(updates: seq<seq<nat>>, rules: Rules): nat
    requires forall u :: u in updates && CorrectlyOrdered(u, rules) ==> |u| > 0
  {
    if updates == [] then 0
    else
      var u := updates[0];
      assert u in updates;
      (if CorrectlyOrdered(u, rules) then Middle(u) else 0) + OrderedMiddles(updates[1..], rules)
  }

  /** Part 2: the middle pages of the repaired updates (a repaired update is
      never empty). */
  function RepairedMiddles(updates: seq<seq<nat>>, rules: Rules): nat
  {
    if updates == [] then 0
    else
      var r := SortResult(updates[0], rules);
      SortResultFacts(updates[0], rules);
      (if r.Some? then Middle(r.value) else 0) + RepairedMiddles(updates[1..], rules)
  }

  /** An update contributes to at most one of the two sums. */
  lemma {:induction false} PartsAreDisjoint(u: seq<nat>, rules: Rules)
    requires |u| > 0
    ensures OrderedMiddles([u], rules) == 0 || RepairedMiddles([u], rules) == 0
  {
    SortResultFacts(u, rules);
    assert [u][1..] == [];
  }
}
