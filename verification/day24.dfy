/** Day 24: crossed wires. A circuit of AND, OR and XOR gates is evaluated
    by repeatedly firing every gate whose two inputs are known, and the
    values of the wires named z.. are packed into a number, bit i coming
    from the wire whose name is z followed by the decimal i. */
module Day24 {
  import opened Common

  type Name = string

  datatype Operator = And | Or | Xor

  /** The value a gate puts on its output wire. */
  function Apply(op: Operator, a: bool, b: bool): (r: bool)
    ensures op == And ==> (r <==> a && b)
    ensures op == Or ==> (r <==> a || b)
    ensures op == Xor ==> (r <==> a != b)
  {
    match op
    case And => a && b
    case Or => a || b
    case Xor => a != b
  }

  /** One parsed gate line: a OP b -> out. */
  datatype GateLine = GateLine(a: Name, b: Name, op: Operator, out: Name)

  datatype Gate = Gate(op: Operator, a: Name, b: Name)

  /** Every gate by its output wire. */
  type Gates = map<Name, Gate>

  /** The gate lines collected by output wire; a later line for the same
      output replaces an earlier one. */
  function GateMap(lines: seq<GateLine>): Gates
  {
    if lines == [] then map[]
    else
      var l := lines[|lines| - 1];
      GateMap(lines[..|lines| - 1])[l.out := Gate(l.op, l.a, l.b)]
  }

  /** The outputs are the wires some line drives, each with the gate of its
      last line. */
  lemma {:induction false} GateMapSpec(lines: seq<GateLine>, i: nat)
    requires i < |lines| && forall j :: i < j < |lines| ==> lines[j].out != lines[i].out
    ensures lines[i].out in GateMap(lines)
    ensures GateMap(lines)[lines[i].out] == Gate(lines[i].op, lines[i].a, lines[i].b)
  {
    if i < |lines| - 1 {
      GateMapSpec(lines[..|lines| - 1], i);
    }
  }

  lemma {:induction false} GateMapKeys(lines: seq<GateLine>, o: Name)
    ensures o in GateMap(lines) <==> exists i :: 0 <= i < |lines| && lines[i].out == o
  {
    if lines != [] {
      var init := lines[..|lines| - 1];
      GateMapKeys(init, o);
      if i :| 0 <= i < |init| && init[i].out == o {
        assert lines[i].out == o;
      }
      if i :| 0 <= i < |lines| - 1 && lines[i].out == o {
        assert init[i].out == o;
      }
    }
  }

  // The meaning of a circuit.

  /** The value of wire w when gates may be nested at most fuel deep: a
      gate output is its gate applied to its inputs' values, any other wire
      is its given input value; None when that runs out of fuel or meets a
      wire with no value. */
  function Eval(gates: Gates, inputs: map<Name, bool>, fuel: nat, w: Name): Option<bool>
  {
    if w in gates then
      if fuel == 0 then None
      else
        var g := gates[w];
        var a, b := Eval(gates, inputs, fuel - 1, g.a), Eval(gates, inputs, fuel - 1, g.b);
        if a.Some? && b.Some? then Some(Apply(g.op, a.value, b.value)) else None
    else if w in inputs then Some(inputs[w])
    else None
  }

  /** More fuel never changes a value already defined. */
  lemma {:induction false} EvalMonotone(gates: Gates, inputs: map<Name, bool>, n: nat, m: nat, w: Name)
    requires n <= m && Eval(gates, inputs, n, w).Some?
    ensures Eval(gates, inputs, m, w) == Eval(gates, inputs, n, w)
  {
    if w in gates {
      var g := gates[w];
      EvalMonotone(gates, inputs, n - 1, m - 1, g.a);
      EvalMonotone(gates, inputs, n - 1, m - 1, g.b);
    }
  }

  // evaluate: the firing loop.

  /** The loop's state: the solved wires are the inputs, untouched, and the
      gate outputs no longer unsolved, each with its value in the circuit;
      the unsolved entries are the remaining gates. */
  ghost predicate Progress(gates: Gates, inputs: map<Name, bool>, depth: nat, solved: map<Name, bool>, unsolved: Gates)
  {
    && unsolved.Keys <= gates.Keys
    && (forall o :: o in unsolved ==> unsolved[o] == gates[o])
    && solved.Keys == inputs.Keys + (gates.Keys - unsolved.Keys)
    && (forall w :: w in inputs ==> solved[w] == inputs[w])
    && (forall o :: o in gates && o !in unsolved ==> Eval(gates, inputs, depth, o) == Some(solved[o]))
  }

  /** Every gate output has a value with nesting at most depth, and no input
      wire is also a gate output. */
  ghost predicate Settles(gates: Gates, inputs: map<Name, bool>, depth: nat)
  {
    inputs.Keys !! gates.Keys && forall o :: o in gates ==> Eval(gates, inputs, depth, o).Some?
  }

  /** A gate whose inputs are solved computes its circuit value. */
  lemma Fire(gates: Gates, inputs: map<Name, bool>, depth: nat, solved: map<Name, bool>, unsolved: Gates, o: Name)
    requires Settles(gates, inputs, depth) && Progress(gates, inputs, depth, solved, unsolved)
    requires o in unsolved && unsolved[o].a in solved && unsolved[o].b in solved
    ensures Eval(gates, inputs, depth, o) == Some(Apply(gates[o].op, solved[gates[o].a], solved[gates[o].b]))
  {
    var g := gates[o];
    var a, b := Eval(gates, inputs, depth - 1, g.a), Eval(gates, inputs, depth - 1, g.b);
    EvalMonotone(gates, inputs, depth - 1, depth, g.a);
    EvalMonotone(gates, inputs, depth - 1, depth, g.b);
  }

  /** Firing a gate whose inputs are solved moves it from unsolved to solved
      and keeps the loop's state. */
  lemma Fired(gates: Gates, inputs: map<Name, bool>, depth: nat, solved: map<Name, bool>, unsolved: Gates, o: Name)
    requires Settles(gates, inputs, depth) && Progress(gates, inputs, depth, solved, unsolved)
    requires o in unsolved && unsolved[o].a in solved && unsolved[o].b in solved
    ensures Progress(gates, inputs, depth,
      solved[o := Apply(unsolved[o].op, solved[unsolved[o].a], solved[unsolved[o].b])], unsolved - {o})
  {
    Fire(gates, inputs, depth, solved, unsolved, o);
    assert unsolved[o] == gates[o];
    var v := Apply(unsolved[o].op, solved[unsolved[o].a], solved[unsolved[o].b]);
    var solved' := solved[o := v];
    var unsolved' := unsolved - {o};
    assert o in gates && o !in inputs;
    assert solved'.Keys == inputs.Keys + (gates.Keys - unsolved'.Keys);
    forall x | x in gates && x !in unsolved'
      ensures Eval(gates, inputs, depth, x) == Some(solved'[x])
    {
      if x == o {
        assert solved'[x] == v;
      } else {
        assert x !in unsolved;
      }
    }
  }

  /** Some unsolved gate below a gate with a value of nesting k has both
      inputs solved. */
  lemma {:induction false} ReadyBelow(gates: Gates, inputs: map<Name, bool>, depth: nat, solved: map<Name, bool>, unsolved: Gates, k: nat, o: Name)
    returns (r: Name)
    requires Progress(gates, inputs, depth, solved, unsolved)
    requires o in unsolved && Eval(gates, inputs, k, o).Some?
    ensures r in unsolved && unsolved[r].a in solved && unsolved[r].b in solved
  {
    var g := gates[o];
    if g.a in unsolved {
      r := ReadyBelow(gates, inputs, depth, solved, unsolved, k - 1, g.a);
    } else if g.b in unsolved {
      r := ReadyBelow(gates, inputs, depth, solved, unsolved, k - 1, g.b);
    } else {
      r := o;
    }
  }

  /** The inner pass over a snapshot of the unsolved gates: each one whose
      inputs are solved is fired and moved to solved. A gate ready at the
      start is fired, so the pass makes progress. */
  method Pass(ghost gates: Gates, ghost inputs: map<Name, bool>, ghost depth: nat, solved0: map<Name, bool>, unsolved0: Gates)
    returns (solved: map<Name, bool>, unsolved: Gates)
    requires Settles(gates, inputs, depth) && Progress(gates, inputs, depth, solved0, unsolved0)
    requires unsolved0 != map[]
    ensures Progress(gates, inputs, depth, solved, unsolved)
    ensures unsolved.Keys < unsolved0.Keys && solved0.Keys <= solved.Keys
  {
    var o0 :| o0 in unsolved0;
    ghost var ready := ReadyBelow(gates, inputs, depth, solved0, unsolved0, depth, o0);
    solved, unsolved := solved0, unsolved0;
    var todo := unsolved0.Keys;
    while todo != {}
      invariant Progress(gates, inputs, depth, solved, unsolved)
      invariant todo <= unsolved.Keys <= unsolved0.Keys
      invariant solved0.Keys <= solved.Keys
      invariant ready in todo || ready !in unsolved
      decreases |todo|
    {
      var o :| o in todo;
      var g := unsolved0[o];
      if g.a in solved && g.b in solved {
        Fired(gates, inputs, depth, solved, unsolved, o);
        var value := Apply(g.op, solved[g.a], solved[g.b]);
        unsolved := unsolved - {o};
        solved := solved[o := value];
      }
      todo := todo - {o};
    }
  }

  lemma ProgressStart(gates: Gates, inputs: map<Name, bool>, depth: nat)
    ensures Progress(gates, inputs, depth, inputs, gates)
  {
    assert inputs.Keys + (gates.Keys - gates.Keys) == inputs.Keys;
  }

  lemma ProgressEnd(gates: Gates, inputs: map<Name, bool>, depth: nat, solved: map<Name, bool>)
    requires Progress(gates, inputs, depth, solved, map[])
    ensures solved.Keys == inputs.Keys + gates.Keys
    ensures forall o :: o in gates ==> Eval(gates, inputs, depth, o) == Some(solved[o])
  {
    var none: Gates := map[];
    assert gates.Keys - none.Keys == gates.Keys;
  }

  /** evaluate's outer loop: passes until no gate is unsolved. It ends with
      every input wire at its given value and every gate output at its
      value in the circuit. */
  method Solve(ghost gates: Gates, inputs: map<Name, bool>, lines: seq<GateLine>, ghost depth: nat)
    returns (solved: map<Name, bool>)
    requires gates == GateMap(lines) && Settles(gates, inputs, depth)
    ensures solved.Keys == inputs.Keys + gates.Keys
    ensures forall w :: w in inputs ==> solved[w] == inputs[w]
    ensures forall o :: o in gates ==> Eval(gates, inputs, depth, o) == Some(solved[o])
  {
    solved := inputs;
    var unsolved := GateMap(lines);
    ProgressStart(gates, inputs, depth);
    while unsolved != map[]
      invariant Progress(gates, inputs, depth, solved, unsolved)
      decreases |unsolved.Keys|
    {
      ghost var before := unsolved.Keys;
      solved, unsolved := Pass(gates, inputs, depth, solved, unsolved);
      ProperSubsetCard(unsolved.Keys, before);
    }
    ProgressEnd(gates, inputs, depth, solved);
  }

  lemma ProperSubsetCard(a: set<Name>, b: set<Name>)
    requires a < b
    ensures |a| < |b|
  {
    assert b == a + (b - a);
  }

  // Packing the z.. wires.

  /** Bit i of n. */
  function Bit(n: nat, i: nat): bool
  {
    if i == 0 then n % 2 == 1 else Bit(n / 2, i - 1)
  }

  /** n | (1 << i). */
  function SetBit(n: nat, i: nat): nat
  {
    if i == 0 then (if n % 2 == 1 then n else n + 1) else 2 * SetBit(n / 2, i - 1) + n % 2
  }

  /** Setting bit i sets bit i and leaves every other bit as it was. */
  lemma {:induction false} SetBitSpec(n: nat, i: nat, j: nat)
    ensures Bit(SetBit(n, i), j) <==> Bit(n, j) || j == i
  {
    var s := SetBit(n, i);
    if i > 0 {
      assert s / 2 == SetBit(n / 2, i - 1) && s % 2 == n % 2;
      if j > 0 {
        SetBitSpec(n / 2, i - 1, j - 1);
      }
    } else if j > 0 {
      assert s / 2 == n / 2;
    }
  }

  lemma {:induction false} BitZero(i: nat)
    ensures !Bit(0, i)
  {
    if i > 0 {
      BitZero(i - 1);
    }
  }

  const UsizeLimit: nat := 0x1_0000_0000_0000_0000

  predicate IsDigit(c: char)
  {
    '0' <= c <= '9'
  }

  /** The number written by a string of decimal digits. */
  function Digits(s: string): nat
    requires forall i :: 0 <= i < |s| ==> IsDigit(s[i])
  {
    if s == [] then 0 else 10 * Digits(s[..|s| - 1]) + DigitValue(s[|s| - 1])
  }

  function DigitValue(c: char): nat
    requires IsDigit(c)
  {
    c as int - '0' as int
  }

  /** usize::from_str_radix(s, 10): an optional '+' and then at least one
      digit, all digits, below 2^64; None where the source panics. */
  function Decimal(s: string): (r: Option<nat>)
    ensures r.Some? ==> r.value < UsizeLimit
  {
    var d := if |s| > 0 && s[0] == '+' then s[1..] else s;
    if d == [] || exists i :: 0 <= i < |d| && !IsDigit(d[i]) then None
    else if Digits(d) >= UsizeLimit then None
    else Some(Digits(d))
  }

  predicate IsZ(z: Name)
  {
    |z| > 0 && z[0] == 'z'
  }

  /** Packing panics on this wire: a z.. name whose rest is not a decimal,
      or a true wire whose index is 64 or more (the shift overflows). */
  predicate Fails(z: Name, value: bool)
  {
    IsZ(z) && (Decimal(z[1..]).None? || (value && Decimal(z[1..]).value >= 64))
  }

  /** This wire sets bit i. */
  predicate Sets(z: Name, value: bool, i: nat)
  {
    IsZ(z) && value && Decimal(z[1..]) == Some(i)
  }

  /** The for_each over the solved wires of evaluate: result |= 1 << index
      for every true z.. wire. None when some wire panics; otherwise bit i
      is set exactly when some z.. wire with index i is true. */
  method Pack(solved: map<Name, bool>) returns (result: Option<nat>)
    ensures result.None? <==> exists z :: z in solved && Fails(z, solved[z])
    ensures result.Some? ==> forall i :: Bit(result.value, i) <==> exists z :: z in solved && Sets(z, solved[z], i)
  {
    var bits: nat := 0;
    forall i
      ensures !Bit(bits, i)
    {
      BitZero(i);
    }
    var todo := solved.Keys;
    while todo != {}
      invariant todo <= solved.Keys
      invariant forall z :: z in solved.Keys - todo ==> !Fails(z, solved[z])
      invariant forall i :: Bit(bits, i) <==> exists z :: z in solved.Keys - todo && Sets(z, solved[z], i)
      decreases |todo|
    {
      var z :| z in todo;
      if IsZ(z) {
        var index := Decimal(z[1..]);
        if index.None? || (solved[z] && index.value >= 64) {
          assert Fails(z, solved[z]);
          return None;
        }
        if solved[z] {
          forall i
            ensures Bit(SetBit(bits, index.value), i) <==> Bit(bits, i) || i == index.value
          {
            SetBitSpec(bits, index.value, i);
          }
          bits := SetBit(bits, index.value);
        }
      }
      todo := todo - {z};
    }
    result := Some(bits);
  }

  /** evaluate: solve the circuit from the given inputs, then pack the z..
      wires. The circuit must settle, or the source loops forever. */
  method Evaluate(inputs: map<Name, bool>, lines: seq<GateLine>, ghost depth: nat) returns (result: Option<nat>)
    requires Settles(GateMap(lines), inputs, depth)
    ensures result.None? <==> exists z :: z in Circuit(GateMap(lines), inputs, depth) && Fails(z, Circuit(GateMap(lines), inputs, depth)[z])
    ensures result.Some? ==> forall i :: Bit(result.value, i) <==>
      exists z :: z in Circuit(GateMap(lines), inputs, depth) && Sets(z, Circuit(GateMap(lines), inputs, depth)[z], i)
  {
    var solved := Solve(GateMap(lines), inputs, lines, depth);
    CircuitUnique(GateMap(lines), inputs, depth, solved);
    result := Pack(solved);
  }

  /** The value of every wire of a settled circuit. */
  ghost function Circuit(gates: Gates, inputs: map<Name, bool>, depth: nat): (r: map<Name, bool>)
    requires Settles(gates, inputs, depth)
    ensures r.Keys == inputs.Keys + gates.Keys
  {
    map w | w in inputs.Keys + gates.Keys :: if w in gates then Eval(gates, inputs, depth, w).value else inputs[w]
  }

  /** The solved map is the circuit's wire values. */
  lemma CircuitUnique(gates: Gates, inputs: map<Name, bool>, depth: nat, solved: map<Name, bool>)
    requires Settles(gates, inputs, depth)
    requires solved.Keys == inputs.Keys + gates.Keys
    requires forall w :: w in inputs ==> solved[w] == inputs[w]
    requires forall o :: o in gates ==> Eval(gates, inputs, depth, o) == Some(solved[o])
    ensures solved == Circuit(gates, inputs, depth)
  {
  }

  // translate_inputs

  /** format!("{:0>2}", n) for n below 100. */
  function TwoDigits(n: nat): (r: string)
    requires n < 100
    ensures |r| == 2 && IsDigit(r[0]) && IsDigit(r[1])
  {
    [('0' as int + n / 10) as char, ('0' as int + n % 10) as char]
  }

  /** The wire name: the prefix letter and two digits. */
  function Wire(prefix: char, n: nat): Name
    requires n < 100
  {
    [prefix] + TwoDigits(n)
  }

  /** Reading back the two digits gives n, so distinct numbers name
      distinct wires. */
  lemma WireIndex(prefix: char, n: nat)
    requires n < 100
    ensures Decimal(Wire(prefix, n)[1..]) == Some(n)
  {
    var d := TwoDigits(n);
    assert Wire(prefix, n)[1..] == d;
    assert d[..1][..0] == [];
    assert Digits(d[..1]) == n / 10;
  }

  /** The pairs (prefix nn, bit nn of v) for nn below n, collected. */
  function Bits(prefix: char, v: nat, n: nat): map<Name, bool>
    requires n <= 100
  {
    if n == 0 then map[] else Bits(prefix, v, n - 1)[Wire(prefix, n - 1) := Bit(v, n - 1)]
  }

  /** The collected wires are prefix 00 .. prefix n-1, each carrying its bit. */
  lemma {:induction false} BitsSpec(prefix: char, v: nat, n: nat, w: Name)
    requires n <= 100
    ensures w in Bits(prefix, v, n) <==> exists k :: 0 <= k < n && w == Wire(prefix, k)
    ensures forall k :: 0 <= k < n && w == Wire(prefix, k) ==> Bits(prefix, v, n)[w] == Bit(v, k)
  {
    if n > 0 {
      BitsSpec(prefix, v, n - 1, w);
      forall k | 0 <= k < n && w == Wire(prefix, k)
        ensures Bits(prefix, v, n)[w] == Bit(v, k)
      {
        if w == Wire(prefix, n - 1) {
          WireIndex(prefix, k);
          WireIndex(prefix, n - 1);
        }
      }
    }
  }

  /** translate_inputs: x00..x44 carry the bits of x, y00..y44 those of y,
      and there is no other wire. */
  function TranslateInputs(x: nat, y: nat): map<Name, bool>
  {
    Bits('x', x, 45) + Bits('y', y, 45)
  }

  lemma TranslateInputsSpec(x: nat, y: nat, w: Name)
    ensures w in TranslateInputs(x, y) <==> exists k :: 0 <= k <= 44 && (w == Wire('x', k) || w == Wire('y', k))
    ensures forall k :: 0 <= k <= 44 && w == Wire('x', k) ==> TranslateInputs(x, y)[w] == Bit(x, k)
    ensures forall k :: 0 <= k <= 44 && w == Wire('y', k) ==> TranslateInputs(x, y)[w] == Bit(y, k)
  {
    BitsSpec('x', x, 45, w);
    BitsSpec('y', y, 45, w);
    if k :| 0 <= k <= 44 && w == Wire('x', k) {
      assert w[0] == 'x';
      assert w !in Bits('y', y, 45);
    }
  }

  // get_node

  datatype Node = Node(name: Name, parents: Option<Parents>)
  datatype Parents = Parents(op: Operator, left: Node, right: Node)

  /** Gates nest at most fuel deep below w. */
  predicate Grounded(gates: Gates, fuel: nat, w: Name)
  {
    w !in gates || (fuel > 0 && Grounded(gates, fuel - 1, gates[w].a) && Grounded(gates, fuel - 1, gates[w].b))
  }

  /** get_node: the tree of gates above a wire. A wire no gate drives is a
      leaf; a gate output has the gate's operator and the trees of its two
      inputs. On a cycle the source recurses forever, so the gates above
      base nest at most depth deep. */
  function GetNode(base: Name, gates: Gates, ghost depth: nat): (r: Node)
    requires Grounded(gates, depth, base)
    ensures r.name == base
    ensures r.parents.None? <==> base !in gates
    ensures r.parents.Some? ==>
      r.parents.value.op == gates[base].op
      && r.parents.value.left.name == gates[base].a && r.parents.value.right.name == gates[base].b
    decreases depth
  {
    Node(base, if base in gates then
      var g := gates[base];
      Some(Parents(g.op, GetNode(g.a, gates, depth - 1), GetNode(g.b, gates, depth - 1)))
    else None)
  }

  /** The value of a tree for given leaf values. */
  function TreeValue(node: Node, inputs: map<Name, bool>): Option<bool>
  {
    match node.parents
    case None => if node.name in inputs then Some(inputs[node.name]) else None
    case Some(Parents(op, left, right)) =>
      var a, b := TreeValue(left, inputs), TreeValue(right, inputs);
      if a.Some? && b.Some? then Some(Apply(op, a.value, b.value)) else None
  }

  /** A wire that has a value has a tree, and the tree computes that value. */
  lemma {:induction false} GetNodeValue(base: Name, gates: Gates, inputs: map<Name, bool>, depth: nat)
    requires Eval(gates, inputs, depth, base).Some?
    ensures Grounded(gates, depth, base)
    ensures TreeValue(GetNode(base, gates, depth), inputs) == Eval(gates, inputs, depth, base)
    decreases depth
  {
    if base in gates {
      var g := gates[base];
      GetNodeValue(g.a, gates, inputs, depth - 1);
      GetNodeValue(g.b, gates, inputs, depth - 1);
    }
  }
}
