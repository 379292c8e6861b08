/** Day 7: can the operands of an equation be combined left to right with +, *
    (and, in part 2, digit concatenation) to reach the target? All arithmetic is
    u64 with saturation. */
module Day07 {
  import opened Common

  const U64_MAX: nat := 0xFFFF_FFFF_FFFF_FFFF

  type U64 = x: nat | x <= U64_MAX

  datatype Operator = Add | Mul | Concat

  function SaturatingAdd(a: U64, b: U64): (r: U64)
    ensures r == if a + b <= U64_MAX then a + b else U64_MAX
  {
    if a + b <= U64_MAX then a + b else U64_MAX
  }

  function SaturatingMul(a: U64, b: U64): (r: U64)
    ensures r == if a * b <= U64_MAX then a * b else U64_MAX
  {
    if a * b <= U64_MAX then a * b else U64_MAX
  }

  /** Decimal digits of n: checked_ilog10 (None for 0, counted as 0) plus one. */
  function DigitCount(n: nat): (d: nat)
    ensures d >= 1
  {
    if n < 10 then 1 else 1 + DigitCount(n / 10)
  }

  function Pow10(k: nat): (r: nat)
    ensures r >= 1
  {
    if k == 0 then 1 else 10 * Pow10(k - 1)
  }

  /** n has DigitCount(n) digits: it is below 10^d, and at least 10^(d-1)
      unless it is 0. */
  lemma {:induction false} DigitCountBounds(n: nat)
    ensures n < Pow10(DigitCount(n))
    ensures n > 0 ==> Pow10(DigitCount(n) - 1) <= n
  {
    if n >= 10 {
      DigitCountBounds(n / 10);
    }
  }

  /** 10^digits fits in a u64 only up to 19 digits; the solution's pow would
      overflow beyond that. */
  predicate ConcatOperand(b: U64)
  {
    DigitCount(b) <= 19
  }

  lemma Pow10Monotone(i: nat, j: nat)
    requires i <= j
    ensures Pow10(i) <= Pow10(j)
    decreases j
  {
    if i < j {
      Pow10Monotone(i, j - 1);
    }
  }

  lemma Pow10Nineteen()
    ensures Pow10(19) == 10_000_000_000_000_000_000
  {
    assert Pow10(1) == 10;
    assert Pow10(2) == 100;
    assert Pow10(3) == 1_000;
    assert Pow10(4) == 10_000;
    assert Pow10(5) == 100_000;
    assert Pow10(6) == 1_000_000;
    assert Pow10(7) == 10_000_000;
    assert Pow10(8) == 100_000_000;
    assert Pow10(9) == 1_000_000_000;
    assert Pow10(10) == 10_000_000_000;
    assert Pow10(11) == 100_000_000_000;
    assert Pow10(12) == 1_000_000_000_000;
    assert Pow10(13) == 10_000_000_000_000;
    assert Pow10(14) == 100_000_000_000_000;
    assert Pow10(15) == 1_000_000_000_000_000;
    assert Pow10(16) == 10_000_000_000_000_000;
    assert Pow10(17) == 100_000_000_000_000_000;
    assert Pow10(18) == 1_000_000_000_000_000_000;
  }

  function Operate(op: Operator, a: U64, b: U64): (r: U64)
    requires op == Concat ==> ConcatOperand(b)
  {
    match op
    case Add => SaturatingAdd(a, b)
    case Mul => SaturatingMul(a, b)
    case Concat =>
      Pow10Monotone(DigitCount(b), 19);
      Pow10Nineteen();
      SaturatingAdd(SaturatingMul(a, Pow10(DigitCount(b))), b)
  }

  /** Concatenation is a * 10^digits(b) + b when that fits in a u64, and
      saturates otherwise. */
  lemma ConcatIsShiftAndAdd(a: U64, b: U64)
    requires ConcatOperand(b)
    ensures a * Pow10(DigitCount(b)) + b <= U64_MAX ==> Operate(Concat, a, b) == a * Pow10(DigitCount(b)) + b
    ensures a * Pow10(DigitCount(b)) + b > U64_MAX ==> Operate(Concat, a, b) == U64_MAX
  {
  }

  lemma ConcatExample()
    ensures Operate(Concat, 12, 345) == 12345
  {
    assert DigitCount(345) == 3;
    assert Pow10(3) == 1000;
  }

  /** With positive operands no operator makes the accumulator smaller. */
  lemma OperateGrows(op: Operator, a: U64, b: U64)
    requires b >= 1 && (op == Concat ==> ConcatOperand(b))
    ensures Operate(op, a, b) >= a
  {
    match op
    case Add =>
    case Mul =>
    case Concat =>
  }

  /** Applying the operators in order, left to right, from acc. */
  function Replay(acc: U64, remaining: seq<U64>, ops: seq<Operator>): U64
    requires |ops| == |remaining|
    requires forall i :: 0 <= i < |ops| && ops[i] == Concat ==> ConcatOperand(remaining[i])
    decreases |remaining|
  {
    if remaining == [] then acc
    else Replay(Operate(ops[0], acc, remaining[0]), remaining[1..], ops[1..])
  }

  function Reverse<T>(s: seq<T>): (r: seq<T>)
    ensures |r| == |s| && forall i :: 0 <= i < |s| ==> r[i] == s[|s| - 1 - i]
  {
    if s == [] then [] else [s[|s| - 1]] + Reverse(s[..|s| - 1])
  }

  /** Part 1's search: prune once the accumulator passes the target, try Add
      then Mul on the next operand, and push the operator after the recursive
      call succeeds (so the list is stored last operator first). */
  function Dfs(target: U64, acc: U64, remaining: seq<U64>): Option<seq<Operator>>
    decreases |remaining|
  {
    if acc > target then None
    else if remaining == [] then (if acc == target then Some([]) else None)
    else
      match Dfs(target, Operate(Add, acc, remaining[0]), remaining[1..])
      case Some(ops) => Some(ops + [Add])
      case None =>
        match Dfs(target, Operate(Mul, acc, remaining[0]), remaining[1..])
        case Some(ops) => Some(ops + [Mul])
        case None => None
  }

  predicate AllConcatOperands(s: seq<U64>)
  {
    forall i :: 0 <= i < |s| ==> ConcatOperand(s[i])
  }

  /** Part 2's search: the same, with Concat as a third choice. */
  function Dfs2(target: U64, acc: U64, remaining: seq<U64>): Option<seq<Operator>>
    requires AllConcatOperands(remaining)
    decreases |remaining|
  {
    if acc > target then None
    else if remaining == [] then (if acc == target then Some([]) else None)
    else
      match Dfs2(target, Operate(Add, acc, remaining[0]), remaining[1..])
      case Some(ops) => Some(ops + [Add])
      case None =>
        match Dfs2(target, Operate(Mul, acc, remaining[0]), remaining[1..])
        case Some(ops) => Some(ops + [Mul])
        case None =>
          match Dfs2(target, Operate(Concat, acc, remaining[0]), remaining[1..])
          case Some(ops) => Some(ops + [Concat])
          case None => None
  }

  /** A list found by Dfs has one operator per operand, no Concat, and replaying
      it in reverse reaches the target. */
  lemma {:induction false} DfsSound(target: U64, acc: U64, remaining: seq<U64>)
    requires Dfs(target, acc, remaining).Some?
    ensures var ops := Dfs(target, acc, remaining).value;
      |ops| == |remaining| && (forall i :: 0 <= i < |ops| ==> ops[i] != Concat) &&
      Replay(acc, remaining, Reverse(ops)) == target
    decreases |remaining|
  {
    if remaining != [] {
      var add := Dfs(target, Operate(Add, acc, remaining[0]), remaining[1..]);
      if add.Some? {
        DfsSound(target, Operate(Add, acc, remaining[0]), remaining[1..]);
        assert Reverse(add.value + [Add]) == [Add] + Reverse(add.value) by {
          assert (add.value + [Add])[..|add.value|] == add.value;
        }
      } else {
        var mul := Dfs(target, Operate(Mul, acc, remaining[0]), remaining[1..]);
        DfsSound(target, Operate(Mul, acc, remaining[0]), remaining[1..]);
        assert Reverse(mul.value + [Mul]) == [Mul] + Reverse(mul.value) by {
          assert (mul.value + [Mul])[..|mul.value|] == mul.value;
        }
      }
    }
  }

  /** The same for Dfs2, whose lists may contain Concat. */
  lemma {:induction false} Dfs2Sound(target: U64, acc: U64, remaining: seq<U64>)
    requires AllConcatOperands(remaining) && Dfs2(target, acc, remaining).Some?
    ensures var ops := Dfs2(target, acc, remaining).value;
      |ops| == |remaining| && Replay(acc, remaining, Reverse(ops)) == target
    decreases |remaining|
  {
    if remaining != [] {
      var rest := remaining[1..];
      var add := Dfs2(target, Operate(Add, acc, remaining[0]), rest);
      var mul := Dfs2(target, Operate(Mul, acc, remaining[0]), rest);
      if add.Some? {
        Dfs2Sound(target, Operate(Add, acc, remaining[0]), rest);
        assert (add.value + [Add])[..|add.value|] == add.value;
      } else if mul.Some? {
        Dfs2Sound(target, Operate(Mul, acc, remaining[0]), rest);
        assert (mul.value + [Mul])[..|mul.value|] == mul.value;
      } else {
        var cat := Dfs2(target, Operate(Concat, acc, remaining[0]), rest);
        Dfs2Sound(target, Operate(Concat, acc, remaining[0]), rest);
        assert (cat.value + [Concat])[..|cat.value|] == cat.value;
      }
    }
  }

  predicate Positive(s: seq<U64>)
  {
    forall i :: 0 <= i < |s| ==> s[i] >= 1
  }

  lemma {:induction false} ReplayGrows(acc: U64, remaining: seq<U64>, ops: seq<Operator>)
    requires |ops| == |remaining| && Positive(remaining)
    requires forall i :: 0 <= i < |ops| && ops[i] == Concat ==> ConcatOperand(remaining[i])
    ensures Replay(acc, remaining, ops) >= acc
    decreases |remaining|
  {
    if remaining != [] {
      OperateGrows(ops[0], acc, remaining[0]);
      ReplayGrows(Operate(ops[0], acc, remaining[0]), remaining[1..], ops[1..]);
    }
  }

  /** With positive operands, Dfs finds a list whenever some choice of Add and
      Mul reaches the target, so the pruning loses nothing. */
  lemma {:induction false} DfsComplete(target: U64, acc: U64, remaining: seq<U64>, ops: seq<Operator>)
    requires |ops| == |remaining| && Positive(remaining)
    requires forall i :: 0 <= i < |ops| ==> ops[i] != Concat
    requires Replay(acc, remaining, ops) == target
    ensures Dfs(target, acc, remaining).Some?
    decreases |remaining|
  {
    ReplayGrows(acc, remaining, ops);
    if remaining != [] {
      var next := Operate(ops[0], acc, remaining[0]);
      DfsComplete(target, next, remaining[1..], ops[1..]);
    }
  }

  /** With positive operands (of at most 19 digits), Dfs2 finds a list whenever
      some choice of Add, Mul and Concat reaches the target. */
  lemma {:induction false} Dfs2Complete(target: U64, acc: U64, remaining: seq<U64>, ops: seq<Operator>)
    requires |ops| == |remaining| && Positive(remaining) && AllConcatOperands(remaining)
    requires Replay(acc, remaining, ops) == target
    ensures Dfs2(target, acc, remaining).Some?
    decreases |remaining|
  {
    ReplayGrows(acc, remaining, ops);
    if remaining != [] {
      var next := Operate(ops[0], acc, remaining[0]);
      Dfs2Complete(target, next, remaining[1..], ops[1..]);
    }
  }

  /** Without the positivity the inputs have, the pruning can miss a solution:
      5 * 0 + 3 reaches 3, but the search stops at once because 5 > 3. */
  lemma PruningNeedsPositiveOperands()
    ensures Replay(5, [0, 3], [Mul, Add]) == 3
    ensures Dfs(3, 5, [0, 3]).None?
  {
  }

  /** Whatever Dfs solves, Dfs2 solves too: Dfs2 tries the same operators first. */
  lemma {:induction false} DfsImpliesDfs2(target: U64, acc: U64, remaining: seq<U64>)
    requires AllConcatOperands(remaining)
    requires Dfs(target, acc, remaining).Some?
    ensures Dfs2(target, acc, remaining).Some?
    decreases |remaining|
  {
    if remaining != [] {
      var rest := remaining[1..];
      if Dfs(target, Operate(Add, acc, remaining[0]), rest).Some? {
        DfsImpliesDfs2(target, Operate(Add, acc, remaining[0]), rest);
      } else {
        DfsImpliesDfs2(target, Operate(Mul, acc, remaining[0]), rest);
      }
    }
  }

  datatype Equation = Equation(target: U64, operands: seq<U64>)

  /** Part 1: the sum of the targets of the solvable equations (the first
      operand is the starting accumulator). */
  function Calibration(eqs: seq<Equation>): nat
    requires forall e :: e in eqs ==> |e.operands| > 0
  {
    if eqs == [] then 0
    else
      var e := eqs[0];
      assert e in eqs;
      (if Dfs(e.target, e.operands[0], e.operands[1..]).Some? then e.target else 0) + Calibration(eqs[1..])
  }

  /** Part 2: the same with concatenation allowed. */
  function Calibration2(eqs: seq<Equation>): nat
    requires forall e :: e in eqs ==> |e.operands| > 0 && AllConcatOperands(e.operands[1..])
  {
    if eqs == [] then 0
    else
      var e := eqs[0];
      assert e in eqs;
      (if Dfs2(e.target, e.operands[0], e.operands[1..]).Some? then e.target else 0) + Calibration2(eqs[1..])
  }

  lemma {:induction false} CalibrationAtMostCalibration2(eqs: seq<Equation>)
    requires forall e :: e in eqs ==> |e.operands| > 0 && AllConcatOperands(e.operands[1..])
    ensures Calibration(eqs) <= Calibration2(eqs)
  {
    if eqs != [] {
      var e := eqs[0];
      assert e in eqs;
      if Dfs(e.target, e.operands[0], e.operands[1..]).Some? {
        DfsImpliesDfs2(e.target, e.operands[0], e.operands[1..]);
      }
      CalibrationAtMostCalibration2(eqs[1..]);
    }
  }
}
