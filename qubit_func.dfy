/** Private/public qubit pairs: the issuer-held private qubit with its secret
    angles, the public qubit whose circuit buffer is extended in place by
    spin and reverse spin, batch generation, projection to the public
    qubits, and the construction of the program that measures a qubit. */
module QubitFunc {
  import opened Circuits

  datatype Option<+T> = None | Some(value: T)

  /** Outcome counts reported by the simulator, keyed by classical bit value. */
  type Counts = map<string, int>

  /** A public qubit: an id, an optional tag and the circuit accumulated by
      spin and reverse spin, not yet executed. */
  class PublicQbit {
    var id: int
    var tag: Option<string>
    var circuit: seq<Gate>

    /** Every gate in the circuit acts on this qubit. */
    ghost predicate Valid()
      reads this
    {
      OnQubit(circuit, id)
    }

    constructor (id: int, tag: Option<string>)
      ensures Valid()
      ensures this.id == id && this.tag == tag && circuit == []
    {
      this.id := id;
      this.tag := tag;
      circuit := [];
    }

    /** Encode: a Y rotation by `theta`, then a Z rotation by `phi`, both on
        this qubit, appended after the gates already there. */
    method MakeSpin(theta: real, phi: real)
      requires Valid()
      modifies this
      ensures Valid()
      ensures id == old(id) && tag == old(tag)
      ensures circuit == old(circuit) + SpinGates(id, theta, phi)
      ensures |circuit| == |old(circuit)| + 2 && circuit[..|old(circuit)|] == old(circuit)
    {
      circuit := circuit + [RY(id, theta)];
      circuit := circuit + [RZ(id, phi)];
    }

    /** Decode: a Z rotation by `-phi`, then a Y rotation by `-theta`, both on
        this qubit, appended after the gates already there. */
    method MakeReverseSpin(theta: real, phi: real)
      requires Valid()
      modifies this
      ensures Valid()
      ensures id == old(id) && tag == old(tag)
      ensures circuit == old(circuit) + ReverseSpinGates(id, theta, phi)
      ensures circuit == old(circuit) + Inverted(SpinGates(id, theta, phi))
      ensures |circuit| == |old(circuit)| + 2 && circuit[..|old(circuit)|] == old(circuit)
    {
      circuit := circuit + [RZ(id, -phi)];
      circuit := circuit + [RY(id, -theta)];
      ReverseSpinIsInverseOfSpin(id, theta, phi);
    }
  }

  /** A private qubit: the secret angles (in degrees) and the public qubit
      derived from it, created with it. */
  class PrivateQbit {
    var id: int
    var theta: real
    var phi: real
    var tag: Option<string>
    var circuit: seq<Gate>
    var publicQbit: PublicQbit

    /** The paired public qubit carries this qubit's id. */
    ghost predicate Paired()
      reads this, publicQbit
    {
      publicQbit.id == id
    }

    constructor (id: int, theta: real, phi: real, tag: Option<string>)
      ensures this.id == id && this.theta == theta && this.phi == phi && this.tag == tag
      ensures circuit == []
      ensures fresh(publicQbit) && Paired() && publicQbit.Valid()
      ensures publicQbit.tag == None && publicQbit.circuit == []
    {
      this.id := id;
      this.theta := theta;
      this.phi := phi;
      this.tag := tag;
      circuit := [];
      publicQbit := new PublicQbit(id, None);
    }
  }

  /** The uniform ranges of the angle source: polar angles in [0, 180] and
      azimuthal angles in [0, 360] degrees. */
  predicate InAngleRanges(thetas: seq<real>, phis: seq<real>)
  {
    (forall k :: 0 <= k < |thetas| ==> 0.0 <= thetas[k] <= 180.0) &&
    (forall k :: 0 <= k < |phis| ==> 0.0 <= phis[k] <= 360.0)
  }

  /** Creates `n` private qubits; the k-th (from 0) has id k + 1 and the k-th
      angles drawn from the injected sources. A non-positive `n` yields none,
      as `range` does. */
  method GenerateRandomPrivateQbits(n: int, thetas: seq<real>, phis: seq<real>)
    returns (ps: seq<PrivateQbit>)
    requires n <= |thetas| && n <= |phis|
    requires InAngleRanges(thetas, phis)
    ensures |ps| == if n > 0 then n else 0
    ensures forall k :: 0 <= k < |ps| ==>
      fresh(ps[k]) && fresh(ps[k].publicQbit) &&
      ps[k].id == k + 1 && ps[k].theta == thetas[k] && ps[k].phi == phis[k] &&
      ps[k].tag == None && ps[k].circuit == [] &&
      ps[k].Paired() && ps[k].publicQbit.Valid() &&
      ps[k].publicQbit.tag == None && ps[k].publicQbit.circuit == []
    ensures forall k :: 0 <= k < |ps| ==>
      0.0 <= ps[k].theta <= 180.0 && 0.0 <= ps[k].phi <= 360.0
    ensures forall i, j :: 0 <= i < j < |ps| ==>
      ps[i].id < ps[j].id && ps[i] != ps[j] && ps[i].publicQbit != ps[j].publicQbit
  {
    ps := [];
    var i := 0;
    while i < n
      invariant 0 <= i && (n > 0 ==> i <= n) && (n <= 0 ==> i == 0)
      invariant |ps| == i
      invariant forall k :: 0 <= k < i ==>
        fresh(ps[k]) && fresh(ps[k].publicQbit) &&
        ps[k].id == k + 1 && ps[k].theta == thetas[k] && ps[k].phi == phis[k] &&
        ps[k].tag == None && ps[k].circuit == [] &&
        ps[k].Paired() && ps[k].publicQbit.Valid() &&
        ps[k].publicQbit.tag == None && ps[k].publicQbit.circuit == []
      invariant forall a, b :: 0 <= a < b < i ==>
        ps[a] != ps[b] && ps[a].publicQbit != ps[b].publicQbit
    {
      var p := new PrivateQbit(i + 1, thetas[i], phis[i], None);
      ps := ps + [p];
      i := i + 1;
    }
  }

  /** The public qubits of `ps`, in the same order: the paired objects
      themselves, not copies. */
  method MakePublicQbitsArray(ps: seq<PrivateQbit>) returns (qs: seq<PublicQbit>)
    ensures |qs| == |ps|
    ensures forall i :: 0 <= i < |ps| ==> qs[i] == ps[i].publicQbit
    ensures forall i :: 0 <= i < |ps| && ps[i].Paired() ==> qs[i].id == ps[i].id
  {
    qs := [];
    for i := 0 to |ps|
      invariant |qs| == i
      invariant forall k :: 0 <= k < i ==> qs[k] == ps[k].publicQbit
    {
      qs := qs + [ps[i].publicQbit];
    }
  }

  /** Submits the qubit's circuit followed by a measurement of the qubit into
      classical slot 0 to the simulator `run`, for `shots` trials, and
      returns its counts. The qubit is only read. */
  method MeasureQbit(run: (seq<Instr>, int) -> Counts, qbit: PublicQbit, shots: int)
    returns (program: seq<Instr>, counts: Counts)
    ensures program == MeasureProgram(qbit.circuit, qbit.id)
    ensures |program| == |qbit.circuit| + 1 && GatesOf(program) == qbit.circuit
    ensures program[|qbit.circuit|] == Measure(qbit.id, 0)
    ensures counts == run(program, shots)
  {
    program := MeasureProgram(qbit.circuit, qbit.id);
    counts := run(program, shots);
  }
}
