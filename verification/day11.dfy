/** Day 11: stones engraved with numbers change on every blink. A 0 becomes
    1; a number with an even count of decimal digits splits into its left and
    right halves; any other number is multiplied by 2024. Part 1 simulates 25
    blinks; part 2 counts the stones after 75 blinks with a memoised
    recurrence. */
module Day11 {
  import opened Common

  /** 10^k. */
  function Pow10(k: nat): (p: nat)
    ensures p >= 1
  {
    if k == 0 then 1 else 10 * Pow10(k - 1)
  }

  lemma {:induction false} Pow10Add(a: nat, b: nat)
    ensures Pow10(a + b) == Pow10(a) * Pow10(b)
    decreases a
  {
    if a > 0 {
      Pow10Add(a - 1, b);
      assert Pow10(a + b) == 10 * Pow10(a - 1 + b);
    }
  }

  /** checked_ilog10().unwrap_or(0) + 1: the number of decimal digits, 1 for 0. */
  function DigitCount(n: nat): (d: nat)
    ensures d >= 1
    ensures n < Pow10(d)
    ensures n > 0 ==> Pow10(d - 1) <= n
  {
    if n < 10 then 1 else 1 + DigitCount(n / 10)
  }

  /** The digit count is the unique d with 10^(d-1) <= n < 10^d. */
  lemma {:induction false} DigitCountUnique(n: nat, d: nat)
    requires d >= 1 && Pow10(d - 1) <= n < Pow10(d)
    ensures DigitCount(n) == d
  {
    if n >= 10 {
      assert Pow10(1) == 10;
      assert d >= 2;
      assert Pow10(d - 1) == 10 * Pow10(d - 2);
      assert Pow10(d - 2) <= n / 10 < Pow10(d - 1);
      DigitCountUnique(n / 10, d - 1);
    }
  }

  /** transform: the one or two stones a stone becomes in one blink. */
  function Transform(stone: nat): (nat, Option<nat>)
  {
    var digits := DigitCount(stone);
    if stone == 0 then (1, None)
    else if digits % 2 == 0 then
      (stone / Pow10(digits / 2), Some(stone % Pow10(digits / 2)))
    else (stone * 2024, None)
  }

  lemma DivMod(x: nat, p: nat)
    requires p >= 1
    ensures (x / p) * p + x % p == x && x % p < p
  {
  }

  lemma MulCancelLess(a: int, b: int, p: int)
    requires p > 0 && a * p < b * p
    ensures a < b
  {
  }

  lemma DivBounds(x: nat, p: nat, lo: nat)
    requires p >= 1 && lo * p <= x < p * p
    ensures lo <= x / p < p
  {
    var q := x / p;
    assert x == q * p + x % p;
    MulCancelLess(q, p, p);
    assert x < (q + 1) * p;
    MulCancelLess(lo, q + 1, p);
  }

  /** An even-digit stone splits into halves of d/2 digits each (the right
      half may have leading zeros): writing the left half followed by the
      right half, zero-padded, gives back the stone. */
  lemma TransformSplit(stone: nat)
    requires stone > 0 && DigitCount(stone) % 2 == 0
    ensures var h := DigitCount(stone) / 2;
      Transform(stone).1.Some? &&
      Transform(stone).0 * Pow10(h) + Transform(stone).1.value == stone &&
      Transform(stone).1.value < Pow10(h) &&
      DigitCount(Transform(stone).0) == h
  {
    var d := DigitCount(stone);
    var h := d / 2;
    var p := Pow10(h);
    var left, right := stone / p, stone % p;
    assert Transform(stone).0 == left && Transform(stone).1 == Some(right);
    assert left * p + right == stone by {
      DivMod(stone, p);
    }
    HalvesBounds(stone, h);
    DigitCountUnique(stone / p, h);
  }

  /** With 10^(2h-1) <= stone < 10^(2h), the left half stone / 10^h has h digits. */
  lemma HalvesBounds(stone: nat, h: nat)
    requires h >= 1 && Pow10(2 * h - 1) <= stone < Pow10(2 * h)
    ensures Pow10(h - 1) <= stone / Pow10(h) < Pow10(h)
  {
    Pow10Add(h, h);
    Pow10Add(h - 1, h);
    assert h - 1 + h == 2 * h - 1;
    DivBounds(stone, Pow10(h), Pow10(h - 1));
  }

  /** The three cases of transform. */
  lemma TransformCases(stone: nat)
    ensures stone == 0 ==> Transform(stone) == (1, None)
    ensures stone > 0 && DigitCount(stone) % 2 == 1 ==> Transform(stone) == (stone * 2024, None)
    ensures Transform(stone).1.Some? <==> stone > 0 && DigitCount(stone) % 2 == 0
  {
  }

  /** The unit test of transform. */
  lemma TransformExamples()
    ensures Transform(0) == (1, None)
    ensures Transform(1234) == (12, Some(34))
    ensures Transform(123) == (123 * 2024, None)
  {
    assert DigitCount(1234) == 4 by {
      assert DigitCount(1234) == 1 + DigitCount(123);
      assert DigitCount(123) == 1 + DigitCount(12);
      assert DigitCount(12) == 1 + DigitCount(1);
    }
    assert Pow10(2) == 100;
    assert DigitCount(123) == 3 by {
      assert DigitCount(123) == 1 + DigitCount(12);
      assert DigitCount(12) == 1 + DigitCount(1);
    }
  }

  /** How many stones one stone becomes after the given number of blinks:
      the recurrence multiply_stones memoises. */
  function Count(stone: nat, steps: nat): (n: nat)
    ensures n >= 1
    decreases steps
  {
    if steps == 0 then 1
    else
      var next := Transform(stone);
      Count(next.0, steps - 1) + (if next.1.Some? then Count(next.1.value, steps - 1) else 0)
  }

  /** Every entry (stone, steps) of a memo table holds the count of that
      stone after that many blinks. */
  ghost predicate Stored(seen: map<(nat, nat), nat>)
  {
    forall k :: k in seen ==> seen[k] == Count(k.0, k.1)
  }

  /** A correct entry keeps a correct table correct. */
  lemma StoredAdd(seen: map<(nat, nat), nat>, stone: nat, steps: nat, count: nat)
    requires Stored(seen) && count == Count(stone, steps)
    ensures Stored(seen[(stone, steps) := count])
  {
  }

  /** The count after one blink and more: the counts of the stones the
      blink makes, first and second (zero when there is none). */
  lemma CountStep(stone: nat, steps: nat, first: nat, second: nat)
    requires steps > 0
    requires first == Count(Transform(stone).0, steps - 1)
    requires second == (if Transform(stone).1.Some? then Count(Transform(stone).1.value, steps - 1) else 0)
    ensures first + second == Count(stone, steps)
  {
  }

  /** The memo table of multiply_stones: every entry (stone, steps) holds
      the recurrence's value. */
  class StoneCache {
    var seen: map<(nat, nat), nat>

    ghost predicate Valid()
      reads this
    {
      Stored(seen)
    }

    constructor ()
      ensures seen == map[] && Valid()
    {
      seen := map[];
    }

    /** multiply_stones: a cache hit returns the stored count, otherwise the
        count is computed from the two stones of one blink and stored. Only
        entries are added, and every entry stays correct. */
    method MultiplyStones(stone: nat, steps: nat) returns (count: nat)
      requires Valid()
      modifies this
      ensures Valid()
      ensures count == Count(stone, steps)
      ensures forall k :: k in old(seen) ==> k in seen
      decreases steps
    {
      if (stone, steps) in seen {
        return seen[(stone, steps)];
      }
      if steps == 0 {
        return 1;
      }
      var next := Transform(stone);
      var first := MultiplyStones(next.0, steps - 1);
      var second := 0;
      if next.1.Some? {
        second := MultiplyStones(next.1.value, steps - 1);
      }
      count := first + second;
      CountStep(stone, steps, first, second);
      StoredAdd(seen, stone, steps, count);
      seen := seen[(stone, steps) := count];
    }
  }

  /** The number of stones the given stones become after the given number
      of blinks, by the recurrence. */
  function CountAll(stones: seq<nat>, steps: nat): nat
  {
    if stones == [] then 0 else Count(stones[0], steps) + CountAll(stones[1..], steps)
  }

  /** part_2: the recurrence summed over the stones with one shared cache. */
  method CountAfter(stones: seq<nat>, blinks: nat) returns (sum: nat)
    ensures sum == CountAll(stones, blinks)
  {
    var cache := new StoneCache();
    sum := 0;
    for i := 0 to |stones|
      invariant cache.Valid()
      invariant sum + CountAll(stones[i..], blinks) == CountAll(stones, blinks)
    {
      assert stones[i..][1..] == stones[i + 1..];
      var count := cache.MultiplyStones(stones[i], blinks);
      sum := sum + count;
    }
  }

  /** The first stone each stone becomes, in place. */
  function Firsts(stones: seq<nat>): (r: seq<nat>)
    ensures |r| == |stones| && forall i :: 0 <= i < |stones| ==> r[i] == Transform(stones[i]).0
  {
    seq(|stones|, i requires 0 <= i < |stones| => Transform(stones[i]).0)
  }

  /** The second stones of the splits, in order (the filter_map). */
  function Seconds(stones: seq<nat>): seq<nat>
  {
    if stones == [] then []
    else
      var t := Transform(stones[0]);
      (if t.1.Some? then [t.1.value] else []) + Seconds(stones[1..])
  }

  /** The number of stones that split. */
  function Splits(stones: seq<nat>): nat
  {
    if stones == [] then 0
    else (if stones[0] > 0 && DigitCount(stones[0]) % 2 == 0 then 1 else 0) + Splits(stones[1..])
  }

  /** One blink of part_1: each stone replaced in place, the second stones
      appended. */
  function Blink(stones: seq<nat>): seq<nat>
  {
    Firsts(stones) + Seconds(stones)
  }

  function Blinks(stones: seq<nat>, n: nat): seq<nat>
    decreases n
  {
    if n == 0 then stones else Blinks(Blink(stones), n - 1)
  }

  /** A blink adds exactly one stone per even-digit stone. */
  lemma {:induction false} BlinkLength(stones: seq<nat>)
    ensures |Blink(stones)| == |stones| + Splits(stones)
    ensures |Seconds(stones)| == Splits(stones)
  {
    if stones != [] {
      BlinkLength(stones[1..]);
      TransformCases(stones[0]);
    }
  }

  /** One round of part_1's loop: iter_mut rewrites each stone, the new
      stones are collected and appended. */
  method BlinkInPlace(stones: seq<nat>) returns (r: seq<nat>)
    ensures r == Blink(stones)
  {
    r := stones;
    var added: seq<nat> := [];
    for i := 0 to |r|
      invariant |r| == |stones|
      invariant r[..i] == Firsts(stones)[..i] && r[i..] == stones[i..]
      invariant added + Seconds(stones[i..]) == Seconds(stones)
    {
      var t := Transform(r[i]);
      assert stones[i..][1..] == stones[i + 1..];
      r := r[i := t.0];
      if t.1.Some? {
        added := added + [t.1.value];
      }
    }
    assert r == Firsts(stones);
    r := r + added;
  }

  /** part_1: the stones after the given number of blinks. */
  method Simulate(stones: seq<nat>, blinks: nat) returns (r: seq<nat>)
    ensures r == Blinks(stones, blinks)
  {
    r := stones;
    for k := 0 to blinks
      invariant Blinks(r, blinks - k) == Blinks(stones, blinks)
    {
      r := BlinkInPlace(r);
    }
  }

  lemma {:induction false} CountAllAppend(a: seq<nat>, b: seq<nat>, steps: nat)
    ensures CountAll(a + b, steps) == CountAll(a, steps) + CountAll(b, steps)
  {
    if a != [] {
      assert (a + b)[0] == a[0] && (a + b)[1..] == a[1..] + b;
      CountAllAppend(a[1..], b, steps);
    } else {
      assert a + b == b;
    }
  }

  /** One more blink: the recurrence counted for each stone equals the
      recurrence counted for the stones it becomes. */
  lemma {:induction false} CountAllStep(stones: seq<nat>, steps: nat)
    ensures CountAll(stones, steps + 1) == CountAll(Blink(stones), steps)
  {
    if stones == [] {
      assert Blink(stones) == [];
    } else {
      var s, rest := stones[0], stones[1..];
      var t := Transform(s);
      var second := if t.1.Some? then [t.1.value] else [];
      CountAllStep(rest, steps);
      assert Firsts(stones) == [t.0] + Firsts(rest);
      assert Seconds(stones) == second + Seconds(rest);
      CountAllAppend(Firsts(rest), Seconds(rest), steps);
      CountAllAppend([t.0], Firsts(rest), steps);
      CountAllAppend(second, Seconds(rest), steps);
      CountAllAppend(Firsts(stones), Seconds(stones), steps);
      assert [t.0][1..] == [];
      if t.1.Some? {
        assert second[1..] == [];
      }
    }
  }

  /** The memoised count of part_2 is the length of part_1's simulation. */
  lemma {:induction false} SimulationCounts(stones: seq<nat>, n: nat)
    ensures |Blinks(stones, n)| == CountAll(stones, n)
    decreases n
  {
    if n == 0 {
      CountAllOnes(stones);
    } else {
      SimulationCounts(Blink(stones), n - 1);
      CountAllStep(stones, n - 1);
    }
  }

  lemma {:induction false} CountAllOnes(stones: seq<nat>)
    ensures CountAll(stones, 0) == |stones|
  {
    if stones != [] {
      CountAllOnes(stones[1..]);
    }
  }

  /** The puzzle's stones. */
  const Input: seq<nat> := [0, 7, 6618216, 26481, 885, 42, 202642, 8791]

  /** part_1 and part_2 give the same count for the same number of blinks. */
  method BothParts(blinks: nat) returns (simulated: nat, counted: nat)
    ensures simulated == counted == CountAll(Input, blinks)
  {
    var stones := Simulate(Input, blinks);
    simulated := |stones|;
    counted := CountAfter(Input, blinks);
    SimulationCounts(Input, blinks);
  }
}
