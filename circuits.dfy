/** Symbolic single-qubit circuits: the rotation gates that a public qubit
    accumulates, the encode (spin) and decode (reverse-spin) segments, a
    symbolic cancellation of adjacent inverse gates, and the measurement
    program built from a circuit. Angles are kept in degrees. */
module Circuits {

  /** One rotation gate on qubit `qubit` by `angle` degrees, about the Y or
      the Z axis. */
  datatype Gate =
    | RY(qubit: int, angle: real)
    | RZ(qubit: int, angle: real)

  /** One instruction of a program: a gate, or a computational-basis
      measurement of `qubit` into classical slot `cbit`. */
  datatype Instr =
    | Op(gate: Gate)
    | Measure(qubit: int, cbit: nat)

  /** The gate that undoes `g`: same axis, same qubit, negated angle. */
  function Inverse(g: Gate): Gate
  {
    match g
    case RY(q, a) => RY(q, -a)
    case RZ(q, a) => RZ(q, -a)
  }

  /** Every gate of `c` acts on qubit `q`. */
  predicate OnQubit(c: seq<Gate>, q: int)
  {
    forall i :: 0 <= i < |c| ==> c[i].qubit == q
  }

  /** The segment that `makeSpin(theta, phi)` appends on qubit `q`. */
  function SpinGates(q: int, theta: real, phi: real): (r: seq<Gate>)
    ensures OnQubit(r, q)
  {
    [RY(q, theta), RZ(q, phi)]
  }

  /** The segment that `makeReverseSpin(theta, phi)` appends on qubit `q`. */
  function ReverseSpinGates(q: int, theta: real, phi: real): (r: seq<Gate>)
    ensures OnQubit(r, q)
  {
    [RZ(q, -phi), RY(q, -theta)]
  }

  /** The inverse of a whole circuit: its gates in reverse order, each one
      inverted. */
  function Inverted(c: seq<Gate>): (r: seq<Gate>)
    ensures |r| == |c|
    ensures forall i :: 0 <= i < |c| ==> r[i] == Inverse(c[|c| - 1 - i])
  {
    if c == [] then [] else Inverted(c[1..]) + [Inverse(c[0])]
  }

  /** The decode segment is the inverse of the encode segment with the same
      angles, on the same qubit. */
  lemma ReverseSpinIsInverseOfSpin(q: int, theta: real, phi: real)
    ensures ReverseSpinGates(q, theta, phi) == Inverted(SpinGates(q, theta, phi))
  {
  }

  // ---------------------------------------------------------------------
  // Symbolic cancellation of adjacent inverse gates

  /** No gate is immediately followed by its own inverse. */
  predicate Reduced(s: seq<Gate>)
  {
    forall i :: 0 <= i < |s| - 1 ==> s[i + 1] != Inverse(s[i])
  }

  /** Push `g` onto the reduced prefix `stack`, cancelling it against the
      last gate when that gate is its inverse. */
  function Step(stack: seq<Gate>, g: Gate): seq<Gate>
  {
    if |stack| > 0 && stack[|stack| - 1] == Inverse(g) then stack[..|stack| - 1]
    else stack + [g]
  }

  /** Feed the gates of `c`, left to right, into `stack`. */
  function ReduceFrom(stack: seq<Gate>, c: seq<Gate>): seq<Gate>
    decreases |c|
  {
    if c == [] then stack else ReduceFrom(Step(stack, c[0]), c[1..])
  }

  /** The circuit left once adjacent inverse pairs have been cancelled. */
  function Reduce(c: seq<Gate>): seq<Gate>
  {
    ReduceFrom([], c)
  }

  lemma InverseInvolution(g: Gate)
    ensures Inverse(Inverse(g)) == g
  {
  }

  /** A step on a reduced stack leaves it reduced. */
  lemma StepKeepsReduced(stack: seq<Gate>, g: Gate)
    requires Reduced(stack)
    ensures Reduced(Step(stack, g))
  {
  }

  /** Reduction from a reduced stack ends in a reduced circuit. */
  lemma {:induction false} ReduceFromKeepsReduced(stack: seq<Gate>, c: seq<Gate>)
    requires Reduced(stack)
    ensures Reduced(ReduceFrom(stack, c))
    decreases |c|
  {
    if c != [] {
      StepKeepsReduced(stack, c[0]);
      ReduceFromKeepsReduced(Step(stack, c[0]), c[1..]);
    }
  }

  /** The result of `Reduce` has no adjacent inverse pair left. */
  lemma ReduceIsReduced(c: seq<Gate>)
    ensures Reduced(Reduce(c))
  {
    ReduceFromKeepsReduced([], c);
  }

  /** Reduction is a left fold: reducing `a + b` is reducing `b` after `a`. */
  lemma {:induction false} ReduceFromAppend(stack: seq<Gate>, a: seq<Gate>, b: seq<Gate>)
    ensures ReduceFrom(stack, a + b) == ReduceFrom(ReduceFrom(stack, a), b)
    decreases |a|
  {
    if a == [] {
      assert a + b == b;
    } else {
      assert (a + b)[0] == a[0];
      assert (a + b)[1..] == a[1..] + b;
      ReduceFromAppend(Step(stack, a[0]), a[1..], b);
    }
  }

  /** Over a reduced stack, any circuit followed by its inverse cancels
      completely. */
  lemma {:induction false} CancelInverted(stack: seq<Gate>, c: seq<Gate>)
    requires Reduced(stack)
    ensures ReduceFrom(stack, c + Inverted(c)) == stack
    decreases |c|
  {
    if c != [] {
      var g, t := c[0], c[1..];
      var mid := t + Inverted(t);
      var s1 := Step(stack, g);
      assert c + Inverted(c) == [g] + (mid + [Inverse(g)]) by {
        assert c == [g] + t;
      }
      calc {
        ReduceFrom(stack, c + Inverted(c));
        ReduceFrom(s1, mid + [Inverse(g)]);
        { ReduceFromAppend(s1, mid, [Inverse(g)]); }
        ReduceFrom(ReduceFrom(s1, mid), [Inverse(g)]);
        { StepKeepsReduced(stack, g); CancelInverted(s1, t); }
        ReduceFrom(s1, [Inverse(g)]);
        Step(s1, Inverse(g));
      }
      InverseInvolution(g);
      if |stack| > 0 && stack[|stack| - 1] == Inverse(g) {
        var n := |stack|;
        if n > 1 {
          assert stack[n - 1] != Inverse(stack[n - 2]);
          InverseInvolution(stack[n - 2]);
        }
        assert stack[..n - 1] + [stack[n - 1]] == stack;
      }
    }
  }

  /** A circuit with no adjacent inverse pair is left as it is. */
  lemma {:induction false} ReduceFromReduced(stack: seq<Gate>, c: seq<Gate>)
    requires Reduced(stack + c)
    ensures ReduceFrom(stack, c) == stack + c
    decreases |c|
  {
    if c != [] {
      var n := |stack|;
      if n > 0 {
        assert (stack + c)[n - 1] == stack[n - 1] && (stack + c)[n] == c[0];
        InverseInvolution(c[0]);
        InverseInvolution(stack[n - 1]);
      }
      assert stack + [c[0]] + c[1..] == stack + c;
      ReduceFromReduced(stack + [c[0]], c[1..]);
    }
  }

  /** `Reduce` is the identity on reduced circuits. */
  lemma ReduceFixesReduced(c: seq<Gate>)
    requires Reduced(c)
    ensures Reduce(c) == c
  {
    ReduceFromReduced([], c);
  }

  /** Cancelling twice is the same as cancelling once, for every circuit. */
  lemma ReduceIdempotent(c: seq<Gate>)
    ensures Reduce(Reduce(c)) == Reduce(c)
  {
    ReduceIsReduced(c);
    ReduceFixesReduced(Reduce(c));
  }

  /** The round trip of the scheme: whatever circuit `c` a qubit already
      holds, a spin followed by a reverse spin with the same angles reduces
      to what `c` alone reduces to. */
  lemma SpinThenReverseCancels(c: seq<Gate>, q: int, theta: real, phi: real)
    ensures Reduce(c + SpinGates(q, theta, phi) + ReverseSpinGates(q, theta, phi)) == Reduce(c)
  {
    var s := SpinGates(q, theta, phi);
    ReverseSpinIsInverseOfSpin(q, theta, phi);
    assert c + s + ReverseSpinGates(q, theta, phi) == c + (s + Inverted(s));
    ReduceFromAppend([], c, s + Inverted(s));
    ReduceIsReduced(c);
    CancelInverted(Reduce(c), s);
  }

  /** On a fresh qubit, spin then reverse spin cancels to the empty circuit
      exactly when the decode angles are the encode angles. */
  lemma CancelsIffSameAngles(q: int, theta: real, phi: real, theta': real, phi': real)
    ensures Reduce(SpinGates(q, theta, phi) + ReverseSpinGates(q, theta', phi')) == []
        <==> theta == theta' && phi == phi'
  {
    var c := SpinGates(q, theta, phi) + ReverseSpinGates(q, theta', phi');
    var y, z, z', y' := RY(q, theta), RZ(q, phi), RZ(q, -phi'), RY(q, -theta');
    assert c == [y, z, z', y'];
    assert [y, z, z', y'][1..] == [z, z', y'] && [z, z', y'][1..] == [z', y'] && [z', y'][1..] == [y'];
    assert Step([], y) == [y] && Step([y], z) == [y, z];
    var s3 := Step([y, z], z');
    calc {
      Reduce(c);
      ReduceFrom([y], [z, z', y']);
      ReduceFrom([y, z], [z', y']);
      ReduceFrom(s3, [y']);
      Step(s3, y');
    }
    if phi == phi' {
      assert s3 == [y];
    } else {
      assert s3 == [y, z, z'];
    }
  }

  // ---------------------------------------------------------------------
  // Measurement program

  /** The circuit's gates as program instructions, in order. */
  function Ops(c: seq<Gate>): (p: seq<Instr>)
    ensures |p| == |c|
    ensures forall i :: 0 <= i < |c| ==> p[i] == Op(c[i])
  {
    if c == [] then [] else [Op(c[0])] + Ops(c[1..])
  }

  /** The gates of a program, with its measurements dropped. */
  function GatesOf(p: seq<Instr>): seq<Gate>
  {
    if p == [] then []
    else if p[0].Op? then [p[0].gate] + GatesOf(p[1..])
    else GatesOf(p[1..])
  }

  /** The program submitted for a qubit: its circuit, then one measurement
      of the qubit into classical slot 0. */
  function MeasureProgram(circuit: seq<Gate>, id: int): (p: seq<Instr>)
    ensures |p| == |circuit| + 1
    ensures p[|circuit|] == Measure(id, 0)
    ensures forall i :: 0 <= i < |circuit| ==> p[i].Op?
    ensures GatesOf(p) == circuit
  {
    OpsGates(circuit);
    GatesOfAppend(Ops(circuit), [Measure(id, 0)]);
    Ops(circuit) + [Measure(id, 0)]
  }

  lemma {:induction false} OpsGates(c: seq<Gate>)
    ensures GatesOf(Ops(c)) == c
    decreases |c|
  {
    if c != [] {
      assert Ops(c)[1..] == Ops(c[1..]);
      OpsGates(c[1..]);
    }
  }

  lemma {:induction false} GatesOfAppend(p: seq<Instr>, r: seq<Instr>)
    ensures GatesOf(p + r) == GatesOf(p) + GatesOf(r)
    decreases |p|
  {
    if p == [] {
      assert p + r == r;
    } else {
      assert (p + r)[0] == p[0];
      assert (p + r)[1..] == p[1..] + r;
      GatesOfAppend(p[1..], r);
    }
  }

  /** The qubit an instruction addresses. */
  function Target(x: Instr): int
  {
    match x
    case Op(g) => g.qubit
    case Measure(q, _) => q
  }

  /** When every gate of the circuit is on the qubit itself, the whole
      program addresses that one qubit and nothing else. */
  lemma MeasureProgramSingleQubit(circuit: seq<Gate>, id: int)
    requires OnQubit(circuit, id)
    ensures forall i :: 0 <= i < |circuit| + 1 ==> Target(MeasureProgram(circuit, id)[i]) == id
  {
  }

  /** A qubit encoded and then decoded with the same angles is measured by a
      program whose gates cancel completely: only the measurement remains. */
  lemma RoundTripProgram(q: int, theta: real, phi: real)
    ensures Reduce(GatesOf(MeasureProgram(SpinGates(q, theta, phi) + ReverseSpinGates(q, theta, phi), q))) == []
  {
    SpinThenReverseCancels([], q, theta, phi);
    assert [] + SpinGates(q, theta, phi) == SpinGates(q, theta, phi);
  }
}
