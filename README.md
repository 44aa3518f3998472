# Qubit-pair bookkeeping of the quantum token scheme

This project models the qubit-pair bookkeeping of a "quantum token" scheme
(`qubits/qubit_func.py`). An issuer holds **private qubits**. Each one stores
secret rotation angles θ (polar) and φ (azimuthal), in degrees, and owns a
paired **public qubit** with the same id. A public qubit keeps a circuit buffer
that grows in place:

- `makeSpin(θ, φ)` encodes by appending `RY(id, θ)` and then `RZ(id, φ)`.
- `makeReverseSpin(θ, φ)` decodes by appending `RZ(id, -φ)` and then `RY(id, -θ)`.

A batch of private qubits gets ids 1..n. Projecting a batch gives its paired
public qubits. To measure a qubit, the program "circuit, then measure the qubit
into classical slot 0" is built and handed to a simulator.

The model has two modules:

- `Circuits` (`circuits.dfy`) is pure. It defines gates as symbolic records
  (`RY`/`RZ` with a qubit and an angle in degrees), the spin and reverse-spin
  segments, and the inverse of a circuit. It also defines a symbolic
  cancellation of adjacent inverse gates. `Reduce` feeds the gates left to right
  through a stack and drops a gate that meets its own inverse. This module also
  builds the measurement program. The encode/decode round trip that the scheme
  relies on is proved on these symbols, with no unitary arithmetic: for any
  prior circuit `c`, `Reduce(c + spin + reverse-spin) == Reduce(c)`. On an empty
  circuit, spin then reverse-spin cancels to nothing exactly when the decode
  angles equal the encode angles.
- `QubitFunc` (`qubit_func.dfy`) is imperative, like the source. It has the
  classes `PublicQbit` and `PrivateQbit`. Their circuits are `seq<Gate>` fields
  that the methods reassign. It also has the loops that generate a batch and
  project the public qubits, and the measurement call.

The measurement code appears twice in the source, as `measure_qbit`
(`qubits/qubit_func.py:49-57`) and `measureQbit` (`qubits/qubit_func.py:67-75`).
The two are identical in behaviour, differing only in the names of the shot-count parameter and of a local variable, and the one method `QubitFunc.MeasureQbit` models both.

External collaborators become parameters:

- The angle sources `get_random_theta` and `get_random_phi` become the injected
  sequences `thetas` and `phis`. A precondition requires them to lie in the
  uniform ranges.
- The simulator becomes a function `run` from (program, shots) to outcome
  counts. The model treats the counts it returns as opaque.

## Model

| member | source | states |
|---|---|---|
| `QubitFunc.PublicQbit.constructor` | qubits/qubit_func.py:18-21 | stores the given id and tag; the circuit starts empty (so every gate in it is trivially on this qubit) |
| `QubitFunc.PublicQbit.MakeSpin` | qubits/qubit_func.py:23-26 | the new circuit is the old one followed by exactly `[RY(id, θ), RZ(id, φ)]`; length grows by 2, the old gates are an unchanged prefix, id and tag are unchanged, and every gate still targets the qubit's own id |
| `QubitFunc.PublicQbit.MakeReverseSpin` | qubits/qubit_func.py:28-31 | the new circuit is the old one followed by exactly `[RZ(id, -φ), RY(id, -θ)]`, which is the inverse of the spin segment; length grows by 2, the old prefix, id and tag are unchanged, and every gate still targets the qubit's own id |
| `QubitFunc.PrivateQbit.constructor` | qubits/qubit_func.py:7-14 | stores id, θ, φ and tag, gives itself an empty circuit, and creates a fresh paired public qubit with the same id, no tag and an empty circuit |
| `Circuits.Inverted` | qubits/qubit_func.py:28-30 | the inverse of a circuit has the same length, and its i-th gate is the inverse (same axis, same qubit, negated angle) of the i-th gate from the end |
| `Circuits.ReverseSpinIsInverseOfSpin` | qubits/qubit_func.py:23-30 | the reverse-spin segment equals the spin segment reversed with every angle negated, on the same qubit and the same axes |
| `Circuits.CancelInverted` | qubits/qubit_func.py:23-30 | starting from a reduced stack, any circuit followed by its inverse cancels back to that stack under pairwise cancellation of adjacent inverse gates |
| `Circuits.SpinThenReverseCancels` | qubits/qubit_func.py:23-30 | whatever a qubit's circuit already holds, a spin followed by a reverse spin with the same angles cancels completely: the circuit reduces to what it reduced to before both calls |
| `Circuits.CancelsIffSameAngles` | qubits/qubit_func.py:23-30 | on an empty circuit, spin(θ, φ) followed by reverse-spin(θ', φ') cancels to the empty circuit if and only if θ' = θ and φ' = φ |
| `Circuits.ReduceFixesReduced` | qubits/qubit_func.py:23-30 | cancellation leaves a circuit with no adjacent inverse pair unchanged, so it never removes gates that do not form an inverse pair |
| `Circuits.ReduceIdempotent` | qubits/qubit_func.py:23-30 | for every circuit, cancelling twice gives the same result as cancelling once |
| `QubitFunc.GenerateRandomPrivateQbits` | qubits/qubit_func.py:34-39 | returns exactly n fresh private qubits (none when n ≤ 0); the k-th has id k+1 and the k-th injected θ and φ, so ids are 1..n and strictly increasing; each owns its own fresh paired public qubit with the same id and an empty circuit; when the injected angles honour the uniform ranges, every θ is in [0, 180] and every φ is in [0, 360] |
| `QubitFunc.MakePublicQbitsArray` | qubits/qubit_func.py:60-64 | returns a list of the same length whose i-th element is `ps[i].publicQbit` itself (the same object, not a copy), so the ids keep their order; the result is fully determined by `ps`, so repeated calls return the same instances |
| `Circuits.MeasureProgram` | qubits/qubit_func.py:50 | the program is the circuit's gates in order (extracting the gates gives back exactly the circuit), followed by one measurement of qubit `id` into classical slot 0 |
| `Circuits.MeasureProgramSingleQubit` | qubits/qubit_func.py:50 | when every gate targets the qubit's id, every instruction of the measurement program addresses that qubit alone |
| `Circuits.RoundTripProgram` | qubits/qubit_func.py:68 | for a qubit that was spun and then reverse-spun with the same angles, the gates of the submitted program cancel completely, so only the measurement remains |
| `QubitFunc.MeasureQbit` | qubits/qubit_func.py:49-57 | submits exactly `MeasureProgram` of the qubit's current circuit and id, that is the circuit followed by a measurement of its id into slot 0, and returns exactly the simulator's counts for that program and shot count; it has no modifies frame, so the qubit's circuit is not reassigned |

## Left out

- `math.radians`: angles stay in degrees as exact reals. The conversion is linear, so `radians(-x) = -radians(x)` and the cancellation argument is unaffected. Floating-point rounding is not modelled.
- The rotation matrices: the model does not compute unitaries. Cancellation is symbolic, pairing a gate with its inverse (same axis, same qubit, negated angle). Reduction does not capture equivalences such as a rotation by 360° equalling the identity up to global phase. `CancelsIffSameAngles` speaks of this symbolic reduction only.
- `random.uniform` (the bodies of `get_random_theta` and `get_random_phi`): it is non-deterministic, so the angles are injected sequences instead. The source's ranges [0, 180] and [0, 360] become the precondition `InAngleRanges`. `random.uniform` may return its upper bound, so the ranges are closed. A half-open [0, 180) would not match the code.
- Running the simulator and reading its counts (`simulator.run`, `get_counts`): the simulator is an external oracle. The function parameter `run` stands for it. Sampling is not modelled, and neither is the sum of the counts.
- The `print` diagnostics in `makeSpin` and `makeReverseSpin` are not modelled. Neither is the unused local `ones` in the measurement functions.
- `PrivateQbit.circuit` is modelled only as a field that starts empty, because nothing in the source ever extends it.
- Tags are modelled as `Option<string>`. The source accepts any value or `None`.
- Tokens, TTL expiry, tolerance-based verification and secret lookup by id are out of scope: no source for them exists in `qubits/qubit_func.py`. `main/main_gui.py` calls `Token` (line 133), `make_spin_for_all_qbits_in_token` (line 136), `reverse_qbits_in_token` (line 150) and `measure_token` (line 175), and none of these four is defined in `qubits/qubit_func.py` or in the other files this model draws on. `main/main_gui.py` (the user interface), `main/main.py` and `generator/generator_qb.py` (demonstration scripts), `backends.py` (cloud backend) and `const/constants.py` (environment loading) are not part of this model.
