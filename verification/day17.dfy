/** Day 17: a three-register machine. Registers a, b and c are usize words,
    the program is a list of 3-bit opcodes each followed by an operand, and
    the Out instruction appends 3-bit values to the output. Part 2 searches
    for the register value that makes the program print itself. */
module Day17 {
  import opened Common

  /** A usize register. The machine only shifts right and XORs values
      below 2^64, so no value ever leaves that range. */
  type Word = nat

  datatype Instr = Adv | Bxl | Bst | Jnz | Bxc | Out | Bdv | Cdv

  /** INSTRUCTIONS: opcode k is the k-th instruction. */
  const Instructions: seq<Instr> := [Adv, Bxl, Bst, Jnz, Bxc, Out, Bdv, Cdv]

  /** The machine as a value: the reference for the Emulator's fields. */
  datatype State = State(a: Word, b: Word, c: Word, pc: nat, program: seq<nat>, output: seq<nat>)

  /** combo_value: operands 0 to 3 are literals, 4, 5 and 6 name the
      registers a, b and c. Operand 7 and above make the source panic, so
      they are excluded. */
  function Combo(s: State, operand: nat): (v: Word)
    requires operand <= 6
    ensures operand <= 3 ==> v == operand
    ensures operand == 4 ==> v == s.a
    ensures operand == 5 ==> v == s.b
    ensures operand == 6 ==> v == s.c
  {
    if operand <= 3 then operand
    else if operand == 4 then s.a
    else if operand == 5 then s.b
    else s.c
  }

  function Pow2(k: nat): (r: nat)
    ensures r >= 1
  {
    if k == 0 then 1 else 2 * Pow2(k - 1)
  }

  /** usize >> (the source panics on a shift by 64 bits or more): each
      shifted-out bit halves the value. */
  function Shr(x: Word, k: Word): (r: Word)
    requires k < 64
    ensures r <= x
    decreases k
  {
    if k == 0 then x else Shr(x / 2, k - 1)
  }

  /** Bitwise exclusive or, bit by bit from the lowest. */
  function Xor(x: Word, y: Word): Word
    decreases x + y
  {
    if x == 0 then y
    else if y == 0 then x
    else 2 * Xor(x / 2, y / 2) + (if x % 2 != y % 2 then 1 else 0)
  }

  lemma {:induction false} XorComm(x: Word, y: Word)
    ensures Xor(x, y) == Xor(y, x)
    decreases x + y
  {
    if x != 0 && y != 0 {
      XorComm(x / 2, y / 2);
    }
  }

  /** XOR never sets a bit above the highest bit of its arguments. */
  lemma {:induction false} XorBelow(x: Word, y: Word, n: nat)
    requires x < Pow2(n) && y < Pow2(n)
    ensures Xor(x, y) < Pow2(n)
    decreases x + y
  {
    if x != 0 && y != 0 {
      XorBelow(x / 2, y / 2, n - 1);
    }
  }

  function Mod8(x: Word): (r: Word)
    ensures r < 8
  {
    x % 8
  }

  predicate UsesCombo(op: Instr)
  {
    op == Adv || op == Bst || op == Out || op == Bdv || op == Cdv
  }

  predicate Shifts(op: Instr)
  {
    op == Adv || op == Bdv || op == Cdv
  }

  /** read_instruction does not panic: either the machine has halted, or
      the opcode and operand are both there, the opcode names an
      instruction, a combo operand names a value, and a shift is by fewer
      than 64 bits. */
  predicate Defined(s: State)
  {
    s.pc >= |s.program| ||
    (s.pc + 1 < |s.program| && s.program[s.pc] < 8 &&
     var op := Instructions[s.program[s.pc]];
     var operand := s.program[s.pc + 1];
     (UsesCombo(op) ==> operand <= 6) &&
     (Shifts(op) ==> Combo(s, operand) < 64))
  }

  /** Reference for one executed instruction of read_instruction. */
  function Exec(s: State): State
    requires Defined(s) && s.pc < |s.program|
  {
    var op := Instructions[s.program[s.pc]];
    var operand := s.program[s.pc + 1];
    var next := s.(pc := s.pc + 2);
    match op
    case Adv => next.(a := Shr(s.a, Combo(s, operand)))
    case Bxl => next.(b := Xor(s.b, operand))
    case Bst => next.(b := Mod8(Combo(s, operand)))
    case Jnz => if s.a != 0 then next.(pc := operand) else next
    case Bxc => next.(b := Xor(s.b, s.c))
    case Out => next.(output := s.output + [Mod8(Combo(s, operand)) ])
    case Bdv => next.(b := Shr(s.a, Combo(s, operand)))
    case Cdv => next.(c := Shr(s.a, Combo(s, operand)))
  }

  /** The program counter moves on by two, except for a taken jump, which
      sets it to the operand. */
  lemma ExecPc(s: State)
    requires Defined(s) && s.pc < |s.program|
    ensures var op := Instructions[s.program[s.pc]];
      Exec(s).pc == if op == Jnz && s.a != 0 then s.program[s.pc + 1] else s.pc + 2
    ensures Exec(s).program == s.program
  {
  }

  /** Each instruction changes only its own target: a for Adv, b for Bxl,
      Bst, Bxc and Bdv, c for Cdv, the output for Out, and nothing but the
      program counter for Jnz. */
  lemma ExecTarget(s: State)
    requires Defined(s) && s.pc < |s.program|
    ensures var op := Instructions[s.program[s.pc]];
      var t := Exec(s);
      (op != Adv ==> t.a == s.a) &&
      (op !in {Bxl, Bst, Bxc, Bdv} ==> t.b == s.b) &&
      (op != Cdv ==> t.c == s.c) &&
      (op != Out ==> t.output == s.output)
  {
  }

  /** The output only grows, one value below 8 at a time. */
  lemma ExecOutput(s: State)
    requires Defined(s) && s.pc < |s.program|
    ensures var t := Exec(s);
      t.output == s.output || (|t.output| == |s.output| + 1 && t.output[..|s.output|] == s.output && t.output[|s.output|] < 8)
  {
  }

  /** Bst and Out reduce their value modulo 8: Bst leaves b below 8. */
  lemma ExecBst(s: State)
    requires Defined(s) && s.pc < |s.program| && Instructions[s.program[s.pc]] == Bst
    ensures Exec(s).b < 8
  {
  }

  /** The Emulator: the registers, the program counter, the program and
      the output, all updated in place by read_instruction. */
  class Emulator {
    var a: Word
    var b: Word
    var c: Word
    var pc: nat
    var program: seq<nat>
    var output: seq<nat>

    function Snapshot(): State
      reads this
    {
      State(a, b, c, pc, program, output)
    }

    /** Emulator::new_with_initial_state. */
    constructor NewWithInitialState()
      ensures Snapshot() == State(InitialA, 0, 0, 0, Program, [])
    {
      a := InitialA;
      b := 0;
      c := 0;
      pc := 0;
      program := Program;
      output := [];
    }

    /** Emulator::read_instruction: false and no change once the program
      counter has left the program, otherwise one instruction executed. */
    method ReadInstruction() returns (running: bool)
      requires Defined(Snapshot())
      modifies this
      ensures running == (old(pc) < |old(program)|)
      ensures Snapshot() == if running then Exec(old(Snapshot())) else old(Snapshot())
    {
      if pc >= |program| {
        return false;
      }
      var s := Snapshot();
      var opcode := program[pc];
      var operand := program[pc + 1];
      pc := pc + 2;
      var instr := Instructions[opcode];
      match instr {
        case Adv => a := Shr(a, Combo(s, operand));
        case Bxl => b := Xor(b, operand);
        case Bst => b := Mod8(Combo(s, operand));
        case Jnz =>
          if a != 0 {
            pc := operand;
          }
        case Bxc => b := Xor(b, c);
        case Out => output := output + [Mod8(Combo(s, operand)) ];
        case Bdv => b := Shr(a, Combo(s, operand));
        case Cdv => c := Shr(a, Combo(s, operand));
      }
      running := true;
    }
  }

  // The puzzle's own program.

  const InitialA: Word := 164516454365621

  const Program: seq<nat> := [2, 4, 1, 1, 7, 5, 1, 5, 0, 3, 4, 4, 5, 5, 3, 0]

  /** eval: the value one pass of Program outputs from register a. */
  function Eval(a: Word): nat
  {
    Xor(Shr(a, Shift(a)), Xor(a % 8, 4)) % 8
  }

  /** Reference for a whole run of Program: one Eval per pass, each pass
      shifting a right by three bits, until a is zero. */
  function Digits(a: Word): (r: seq<nat>)
    ensures |r| >= 1
    decreases a
  {
    if Shr(a, 3) == 0 then [Eval(a)] else [Eval(a)] + Digits(Shr(a, 3))
  }

  /** The shift of the pass's Cdv: (a % 8) ^ 1. */
  function Shift(x: Word): (k: Word)
    ensures k < 8
  {
    XorBelow(Mod8(x), 1, 3);
    Xor(Mod8(x), 1)
  }

  /** On three-bit values, XOR with 1 then 5 is XOR with 4. */
  lemma XorOneFive(m: Word)
    requires m < 8
    ensures Xor(Xor(m, 1), 5) == Xor(m, 4)
  {
    if m < 2 {
      XorOneFiveFrom0(m);
    } else if m < 4 {
      XorOneFiveFrom2(m);
    } else if m < 6 {
      XorOneFiveFrom4(m);
    } else {
      XorOneFiveFrom6(m);
    }
  }

  /** XOR on the small values the cases below reduce to, one unfolding
      at a time. */
  lemma XorSmall()
    ensures Xor(0, 0) == 0 && Xor(1, 1) == 0 && Xor(2, 2) == 0
    ensures Xor(1, 0) == 1 && Xor(2, 0) == 2 && Xor(3, 0) == 3
    ensures Xor(3, 2) == 1 && Xor(2, 3) == 1 && Xor(0, 1) == 1 && Xor(1, 2) == 3
  {
    assert Xor(0, 0) == 0;
    assert Xor(1, 1) == 2 * Xor(0, 0);
    assert Xor(2, 2) == 2 * Xor(1, 1);
    assert Xor(3, 2) == 2 * Xor(1, 1) + 1;
    assert Xor(2, 3) == 2 * Xor(1, 1) + 1;
    assert Xor(1, 2) == 2 * Xor(0, 1) + 1;
  }

  lemma XorOneFiveFrom0(m: Word)
    requires m < 2
    ensures Xor(Xor(m, 1), 5) == Xor(m, 4)
  {
    XorSmall();
    if m == 0 {
      assert Xor(0, 1) == 1 && Xor(0, 4) == 4;
      assert Xor(1, 5) == 2 * Xor(0, 2) + 0;
    } else {
      assert Xor(1, 1) == 0 && Xor(0, 5) == 5;
      assert Xor(1, 4) == 2 * Xor(0, 2) + 1;
    }
  }

  lemma XorOneFiveFrom2(m: Word)
    requires 2 <= m < 4
    ensures Xor(Xor(m, 1), 5) == Xor(m, 4)
  {
    XorSmall();
    if m == 2 {
      assert Xor(2, 1) == 2 * Xor(1, 0) + 1;
      assert Xor(3, 5) == 2 * Xor(1, 2) + 0;
      assert Xor(2, 4) == 2 * Xor(1, 2) + 0;
    } else {
      assert Xor(3, 1) == 2 * Xor(1, 0) + 0;
      assert Xor(2, 5) == 2 * Xor(1, 2) + 1;
      assert Xor(3, 4) == 2 * Xor(1, 2) + 1;
    }
  }

  lemma XorOneFiveFrom4(m: Word)
    requires 4 <= m < 6
    ensures Xor(Xor(m, 1), 5) == Xor(m, 4)
  {
    XorSmall();
    if m == 4 {
      assert Xor(4, 1) == 2 * Xor(2, 0) + 1;
      assert Xor(5, 5) == 2 * Xor(2, 2) + 0;
      assert Xor(4, 4) == 2 * Xor(2, 2) + 0;
    } else {
      assert Xor(5, 1) == 2 * Xor(2, 0) + 0;
      assert Xor(4, 5) == 2 * Xor(2, 2) + 1;
      assert Xor(5, 4) == 2 * Xor(2, 2) + 1;
    }
  }

  lemma XorOneFiveFrom6(m: Word)
    requires 6 <= m < 8
    ensures Xor(Xor(m, 1), 5) == Xor(m, 4)
  {
    XorSmall();
    if m == 6 {
      assert Xor(6, 1) == 2 * Xor(3, 0) + 1;
      assert Xor(7, 5) == 2 * Xor(3, 2) + 0;
      assert Xor(6, 4) == 2 * Xor(3, 2) + 0;
    } else {
      assert Xor(7, 1) == 2 * Xor(3, 0) + 0;
      assert Xor(6, 5) == 2 * Xor(3, 2) + 1;
      assert Xor(7, 4) == 2 * Xor(3, 2) + 1;
    }
  }

  /** eval is what Out prints at the end of one pass: b ends as
      ((a % 8) ^ 1 ^ 5) ^ (a >> ((a % 8) ^ 1)). */
  lemma EvalIsPass(x: Word)
    ensures Mod8(Xor(Xor(Shift(x), 5), Shr(x, Shift(x)))) == Eval(x)
  {
    XorOneFive(x % 8);
    XorComm(Xor(x % 8, 4), Shr(x, Shift(x)));
  }

  /** Where a run of Program stands, given the value x that register a
      held at the start of the current pass: what the registers hold at
      each program counter. */
  predicate OnTrack(s: State, x: Word)
  {
    var k := Shift(x);
    s.program == Program &&
    match s.pc
    case 0 => s.a == x
    case 2 => s.a == x && s.b == Mod8(x)
    case 4 => s.a == x && s.b == k
    case 6 => s.a == x && s.b == k && s.c == Shr(x, k)
    case 8 => s.a == x && s.b == Xor(k, 5) && s.c == Shr(x, k)
    case 10 => s.a == Shr(x, 3) && s.b == Xor(k, 5) && s.c == Shr(x, k)
    case 12 => s.a == Shr(x, 3) && s.b == Xor(Xor(k, 5), Shr(x, k))
    case 14 => s.a == Shr(x, 3)
    case 16 => s.a == 0 && Shr(x, 3) == 0
    case _ => false
  }

  /** The output still to come from s when the current pass started with x. */
  function Pending(s: State, x: Word): seq<nat>
  {
    if s.pc <= 12 then Digits(x)
    else if Shr(x, 3) == 0 then []
    else Digits(Shr(x, 3))
  }

  /** One instruction of Program keeps the run on track, keeps the output
      so far plus the pending output unchanged, and brings the run closer
      to its end. */
  lemma StepOnTrack(s: State, x: Word) returns (x': Word)
    requires OnTrack(s, x) && s.pc < 16
    ensures Defined(s) && OnTrack(Exec(s), x')
    ensures Exec(s).output + Pending(Exec(s), x') == s.output + Pending(s, x)
    ensures Shr(x', 3) < Shr(x, 3) || (x' == x && Exec(s).pc > s.pc)
  {
    x' := x;
    if s.pc <= 10 {
      StepCompute(s, x);
    } else if s.pc == 12 {
      StepOut(s, x);
    } else {
      x' := StepJump(s, x);
    }
  }

  /** The six register instructions of a pass. */
  lemma StepCompute(s: State, x: Word)
    requires OnTrack(s, x) && s.pc <= 10
    ensures Defined(s) && OnTrack(Exec(s), x)
    ensures Exec(s).output + Pending(Exec(s), x) == s.output + Pending(s, x)
    ensures Exec(s).pc > s.pc
  {
    var t := Exec(s);
    assert s.program[s.pc] == Program[s.pc] && s.program[s.pc + 1] == Program[s.pc + 1];
    if s.pc == 0 {
      assert t == s.(pc := 2, b := Mod8(x));
    } else if s.pc == 2 {
      assert t == s.(pc := 4, b := Xor(Mod8(x), 1));
    } else if s.pc == 4 {
      assert Defined(s);
      assert t == s.(pc := 6, c := Shr(x, Shift(x)));
    } else if s.pc == 6 {
      assert t == s.(pc := 8, b := Xor(Shift(x), 5));
    } else if s.pc == 8 {
      assert t == s.(pc := 10, a := Shr(x, 3));
    } else {
      assert t == s.(pc := 12, b := Xor(s.b, s.c));
    }
  }

  /** The output of a run from x is its eval, then the output of the run
      from x without its lowest three bits, if any is left. */
  lemma DigitsHead(out: seq<nat>, x: Word)
    ensures out + Digits(x) == (out + [Eval(x)]) + (if Shr(x, 3) == 0 then [] else Digits(Shr(x, 3)))
  {
  }

  /** The out instruction prints the pass's eval. */
  lemma StepOut(s: State, x: Word)
    requires OnTrack(s, x) && s.pc == 12
    ensures Defined(s) && OnTrack(Exec(s), x)
    ensures Exec(s).output + Pending(Exec(s), x) == s.output + Pending(s, x)
    ensures Exec(s).pc > s.pc
  {
    var t := Exec(s);
    assert s.program[12] == 5 && s.program[13] == 5;
    assert Instructions[5] == Out && Combo(s, 5) == s.b;
    EvalIsPass(x);
    assert t == s.(pc := 14, output := s.output + [Eval(x)]);
    DigitsHead(s.output, x);
  }

  /** The jnz at the end of a pass: back to the start with a shorter
      register, or out of the program once it is zero. */
  lemma StepJump(s: State, x: Word) returns (x': Word)
    requires OnTrack(s, x) && s.pc == 14
    ensures Defined(s) && OnTrack(Exec(s), x')
    ensures Exec(s).output + Pending(Exec(s), x') == s.output + Pending(s, x)
    ensures Shr(x', 3) < Shr(x, 3) || (x' == x && Exec(s).pc > s.pc)
  {
    var t := Exec(s);
    assert s.program[14] == 3 && s.program[15] == 0;
    x' := x;
    if s.a != 0 {
      assert t == s.(pc := 0);
      x' := s.a;
      assert Shr(x', 3) < x' == Shr(x, 3);
    } else {
      assert t == s.(pc := 16);
    }
  }

  /** part_1's loop, `while emu.read_instruction() {}`, on Program from
      the start of a pass with register a holding x: it halts, and what it
      appends to the output is Digits(x). */
  method RunToHalt(emu: Emulator, ghost x: Word)
    requires OnTrack(emu.Snapshot(), x) && emu.pc == 0
    modifies emu
    ensures emu.output == old(emu.output) + Digits(x) && emu.pc == 16 && emu.a == 0
  {
    ghost var y := x;
    var running := true;
    while running
      invariant OnTrack(emu.Snapshot(), y)
      invariant emu.output + Pending(emu.Snapshot(), y) == old(emu.output) + Digits(x)
      invariant !running ==> emu.pc == 16
      decreases if running then 1 else 0, Shr(y, 3), 16 - emu.pc
    {
      ghost var s := emu.Snapshot();
      ghost var y' := y;
      if s.pc < 16 {
        y' := StepOnTrack(s, y);
      }
      running := emu.ReadInstruction();
      y := y';
    }
  }

  /** part_1: the output of Program from the initial registers. */
  method Part1() returns (output: seq<nat>)
    ensures output == Digits(InitialA)
  {
    var emu := new Emulator.NewWithInitialState();
    RunToHalt(emu, InitialA);
    output := emu.output;
  }

  // part_2: rebuilding the register value three bits at a time.

  /** The candidates sol * 8 + addend, addend from 0 to 7 in order, whose
      eval is instr (the inner map and filter of part_2). */
  function Keep(sol: Word, instr: nat, addend: nat): (r: seq<Word>)
    requires addend <= 8
    decreases 8 - addend
  {
    if addend == 8 then []
    else
      var v := sol * 8 + addend;
      (if Eval(v) == instr then [v] else []) + Keep(sol, instr, addend + 1)
  }

  /** Keep holds exactly the values above sol * 8 + addend, below
      sol * 8 + 8, whose eval is instr. */
  lemma {:induction false} KeepMembers(sol: Word, instr: nat, addend: nat, u: Word)
    requires addend <= 8
    ensures u in Keep(sol, instr, addend) <==> u / 8 == sol && addend <= u % 8 && Eval(u) == instr
    decreases 8 - addend
  {
    if addend < 8 {
      KeepMembers(sol, instr, addend + 1, u);
      var v := sol * 8 + addend;
      Split8(v, sol, addend);
      var here := if Eval(v) == instr then [v] else [];
      assert Keep(sol, instr, addend) == here + Keep(sol, instr, addend + 1);
      if u / 8 == sol && u % 8 == addend {
        assert u == v by {
          assert u == 8 * (u / 8) + u % 8;
        }
      }
    }
  }

  /** The value sol * 8 + addend splits back into sol and addend. */
  lemma Split8(v: Word, sol: Word, addend: nat)
    requires addend < 8 && v == sol * 8 + addend
    ensures v / 8 == sol && v % 8 == addend
  {
  }

  /** One round of part_2: every candidate extended by every addend,
      keeping those whose eval is instr. A value is kept exactly when its
      eval is instr and the value without its lowest three bits was a
      candidate. */
  function Extend(sols: seq<Word>, instr: nat): (r: seq<Word>)
  {
    if sols == [] then []
    else Keep(sols[0], instr, 0) + Extend(sols[1..], instr)
  }

  /** A value is kept by Extend exactly when its eval is instr and the
      value without its lowest three bits was a candidate. */
  lemma {:induction false} ExtendMembers(sols: seq<Word>, instr: nat, v: Word)
    ensures v in Extend(sols, instr) <==> v / 8 in sols && Eval(v) == instr
  {
    if sols != [] {
      var head := Keep(sols[0], instr, 0);
      var rest := Extend(sols[1..], instr);
      ExtendMembers(sols[1..], instr, v);
      KeepMembers(sols[0], instr, 0, v);
      assert Extend(sols, instr) == head + rest;
      assert v in head + rest <==> v in head || v in rest;
      assert v / 8 in sols <==> v / 8 == sols[0] || v / 8 in sols[1..] by {
        assert sols == [sols[0]] + sols[1..];
      }
    }
  }

  /** The smallest element, as Iterator::min. */
  function Min(s: seq<Word>): (m: Option<Word>)
    ensures m.None? <==> s == []
    ensures m.Some? ==> m.value in s && forall v :: v in s ==> m.value <= v
  {
    if s == [] then None
    else
      assert s == [s[0]] + s[1..];
      match Min(s[1..])
      case None => Some(s[0])
      case Some(rest) => Some(if s[0] <= rest then s[0] else rest)
  }

  /** The adv 3 shift drops the lowest three bits. */
  lemma ShrThree(v: Word)
    ensures Shr(v, 3) == v / 8
  {
    assert Shr(v, 3) == ((v / 2) / 2) / 2;
  }

  /** A run from zero prints a single 4, so no suffix of Program (which
      ends in 0) comes from zero. */
  lemma DigitsZero()
    ensures Digits(0) == [4] && Program[|Program| - 1] == 0
  {
    assert Shift(0) == 1;
    assert Shr(0, 3) == 0;
  }

  /** A run prints x followed by a tail ending in 0 exactly when its
      first output is x and the run from the value without its lowest
      three bits prints the tail. */
  lemma DigitsCons(v: Word, x: nat, tail: seq<nat>)
    requires |tail| >= 1 && tail[|tail| - 1] == 0
    ensures Digits(v) == [x] + tail <==> Eval(v) == x && Digits(v / 8) == tail
  {
    DigitsZero();
    ShrThree(v);
    var d := Digits(v);
    if v / 8 == 0 {
      assert |d| == 1;
      assert d != [x] + tail;
      assert Digits(0) != tail by {
        if |tail| == 1 {
          assert tail[0] == 0;
        }
      }
    } else {
      var rest := Digits(v / 8);
      assert d == [Eval(v)] + rest;
      if d == [x] + tail {
        assert d[0] == x;
        assert d[1..] == rest;
        assert d[1..] == tail;
      }
    }
  }

  /** A run prints the single element x exactly when the value is below 8
      and its first output is x. */
  lemma DigitsSingle(v: Word, x: nat)
    ensures Digits(v) == [x] <==> v / 8 == 0 && Eval(v) == x
  {
    ShrThree(v);
    if v / 8 != 0 {
      assert |Digits(v)| >= 2 by {
        assert Digits(v) == [Eval(v)] + Digits(v / 8);
      }
    }
  }

  /** sols holds exactly the register values whose run prints suffix. */
  ghost predicate PrintsExactly(sols: seq<Word>, suffix: seq<nat>)
  {
    forall v :: v in sols <==> Digits(v) == suffix
  }

  /** If sols holds exactly the values that print a tail ending in 0, one
      round of Extend holds exactly the values that print x before it. */
  lemma DigitsExtend(v: Word, x: nat, tail: seq<nat>, sols: seq<Word>)
    requires |tail| >= 1 && tail[|tail| - 1] == 0
    requires PrintsExactly(sols, tail)
    ensures v in Extend(sols, x) <==> Digits(v) == [x] + tail
  {
    DigitsCons(v, x, tail);
    ExtendMembers(sols, x, v);
  }

  /** The starting candidates are exactly the values that print [instr]. */
  lemma KeepPrints(instr: nat)
    ensures PrintsExactly(Keep(0, instr, 0), [instr])
  {
    forall v ensures v in Keep(0, instr, 0) <==> Digits(v) == [instr] {
      DigitsSingle(v, instr);
      KeepMembers(0, instr, 0, v);
    }
  }

  /** The first candidates of part_2: the three-bit values whose eval is
      the program's last element. */
  method FirstCandidates(endInstr: nat) returns (solutions: seq<Word>)
    ensures PrintsExactly(solutions, [endInstr])
  {
    solutions := Keep(0, endInstr, 0);
    KeepPrints(endInstr);
  }

  /** One round of the search keeps PrintsExactly for the longer suffix. */
  lemma ExtendPrints(prog: seq<nat>, k: nat, sols: seq<Word>)
    requires 0 < k < |prog| && prog[|prog| - 1] == 0
    requires PrintsExactly(sols, prog[k..])
    ensures PrintsExactly(Extend(sols, prog[k - 1]), prog[k - 1..])
  {
    var tail := prog[k..];
    assert tail[|tail| - 1] == 0;
    assert prog[k - 1..] == [prog[k - 1]] + tail;
    forall v ensures v in Extend(sols, prog[k - 1]) <==> Digits(v) == [prog[k - 1]] + tail {
      DigitsExtend(v, prog[k - 1], tail, sols);
    }
  }

  /** The candidate search of part_2 over a program that ends in 0 (as
      Program does): start from the three-bit values whose eval is the last
      element, then prepend the elements one by one. The candidates left
      are exactly the register values whose run prints the program. */
  method Candidates(prog: seq<nat>) returns (solutions: seq<Word>)
    requires |prog| >= 1 && prog[|prog| - 1] == 0
    ensures PrintsExactly(solutions, prog)
  {
    // k is the length of the program not yet popped
    var k: nat := |prog| - 1;
    var endInstr := prog[k];
    solutions := FirstCandidates(endInstr);
    assert prog[k..] == [endInstr];
    while k > 0
      invariant k < |prog|
      invariant PrintsExactly(solutions, prog[k..])
    {
      ExtendPrints(prog, k, solutions);
      solutions := Extend(solutions, prog[k - 1]);
      k := k - 1;
    }
    assert prog[k..] == prog;
  }

  /** part_2: the least register value for which Program prints itself,
      and None only when there is none. */
  method Part2() returns (r: Option<Word>)
    ensures r.Some? ==> Digits(r.value) == Program && forall v :: Digits(v) == Program ==> r.value <= v
    ensures r.None? ==> forall v :: Digits(v) != Program
  {
    DigitsZero();
    var solutions := Candidates(Program);
    r := Min(solutions);
    assert PrintsExactly(solutions, Program);
  }
}
