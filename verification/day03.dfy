/** Day 3: a stream of mul(a,b), do() and don't() instructions is folded into a
    machine that adds the products of the multiplications met while it is on.
    The regular-expression scan that produces the stream is not modelled; the
    stream is a parameter. */
module Day03 {

  datatype Instruction = Mul(a: nat, b: nat) | On | Off

  /** The machine's state as a value: the on/off switch and the running sum. */
  datatype State = State(isOn: bool, sum: nat)

  /** One instruction's effect on the state. */
  function Step(s: State, instr: Instruction): State
  {
    match instr
    case Mul(a, b) => if s.isOn then State(s.isOn, s.sum + a * b) else s
    case Off => State(false, s.sum)
    case On => State(true, s.sum)
  }

  /** The state after folding the whole stream, starting switched on with sum 0. */
  function Run(instrs: seq<Instruction>): State
  {
    if instrs == [] then State(true, 0)
    else Step(Run(instrs[..|instrs| - 1]), instrs[|instrs| - 1])
  }

  class Machine {
    var isOn: bool
    var sum: nat

    constructor ()
      ensures isOn && sum == 0
    {
      isOn := true;
      sum := 0;
    }

    function Current(): State
      reads this
    {
      State(isOn, sum)
    }

    /** A product is added only while on; do() and don't() flip the switch and
        leave the sum alone. */
    method Instruct(instr: Instruction)
      modifies this
      ensures Current() == Step(old(Current()), instr)
      ensures instr.Mul? ==> isOn == old(isOn) && sum == old(sum) + (if old(isOn) then instr.a * instr.b else 0)
      ensures !instr.Mul? ==> isOn == instr.On? && sum == old(sum)
    {
      match instr {
        case Mul(a, b) =>
          if isOn {
            sum := sum + a * b;
          }
        case Off =>
          isOn := false;
        case On =>
          isOn := true;
      }
    }
  }

  /** Part 2: a fresh machine folded over the stream; the result is its sum. */
  method SumEnabled(instrs: seq<Instruction>) returns (total: nat)
    ensures total == Run(instrs).sum
  {
    var machine := new Machine();
    var i := 0;
    while i < |instrs|
      invariant 0 <= i <= |instrs|
      invariant machine.Current() == Run(instrs[..i])
    {
      assert instrs[..i + 1][..i] == instrs[..i];
      machine.Instruct(instrs[i]);
      i := i + 1;
    }
    assert instrs[..|instrs|] == instrs;
    total := machine.sum;
  }

  /** Whether the machine is on just before instruction i: the most recent do()
      or don't() decides, and it starts on. */
  function EnabledAt(instrs: seq<Instruction>, i: nat): bool
    requires i <= |instrs|
  {
    if i == 0 then true
    else match instrs[i - 1]
      case On => true
      case Off => false
      case Mul(_, _) => EnabledAt(instrs, i - 1)
  }

  /** What instruction i contributes on its own. */
  function Contribution(instrs: seq<Instruction>, i: nat): nat
    requires i < |instrs|
  {
    if instrs[i].Mul? && EnabledAt(instrs, i) then instrs[i].a * instrs[i].b else 0
  }

  /** Reference sum over the first n instructions: each multiplication not
      disabled by a preceding don't(). */
  function EnabledProducts(instrs: seq<Instruction>, n: nat): nat
    requires n <= |instrs|
  {
    if n == 0 then 0 else EnabledProducts(instrs, n - 1) + Contribution(instrs, n - 1)
  }

  lemma {:induction false} RunPrefix(instrs: seq<Instruction>, n: nat)
    requires n <= |instrs|
    ensures Run(instrs[..n]) == State(EnabledAt(instrs, n), EnabledProducts(instrs, n))
  {
    if n > 0 {
      assert instrs[..n][..n - 1] == instrs[..n - 1];
      RunPrefix(instrs, n - 1);
    }
  }

  /** The fold equals the reference sum. */
  lemma RunIsEnabledProducts(instrs: seq<Instruction>)
    ensures Run(instrs).sum == EnabledProducts(instrs, |instrs|)
  {
    RunPrefix(instrs, |instrs|);
    assert instrs[..|instrs|] == instrs;
  }

  /** Part 1 adds up every multiplication, ignoring the switches. */
  function AllProducts(instrs: seq<Instruction>): nat
  {
    if instrs == [] then 0
    else
      var last := instrs[|instrs| - 1];
      AllProducts(instrs[..|instrs| - 1]) + (if last.Mul? then last.a * last.b else 0)
  }

  lemma {:induction false} RunAtMostAll(instrs: seq<Instruction>)
    ensures Run(instrs).sum <= AllProducts(instrs)
  {
    if instrs != [] {
      RunAtMostAll(instrs[..|instrs| - 1]);
    }
  }

  /** Without don't() the machine stays on and adds every product. */
  lemma {:induction false} NoOffAddsAll(instrs: seq<Instruction>)
    requires forall i :: 0 <= i < |instrs| ==> !instrs[i].Off?
    ensures Run(instrs) == State(true, AllProducts(instrs))
  {
    if instrs != [] {
      NoOffAddsAll(instrs[..|instrs| - 1]);
    }
  }
}
