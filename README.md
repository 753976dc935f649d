# FDM mass-ring oscillator: a verified Dafny model

This project models `MassSystem`, the physical-modelling core of the Metastable FDM oscillator. The model covers `src/FDM.cpp`, lines 4-93.

The oscillator is a closed ring of `nWeights = 20` weights. Each weight carries a mass, a position, a velocity and an acceleration. Three per-node coefficient arrays sit beside the weights:

- `spring`: the stiffness of the spring from node i to node i+1 (mod 20);
- `center`: the stiffness pulling node i back to zero;
- `damp`: the velocity damping at node i.

The four setters clamp their argument and copy it into all 20 slots. `update` runs one semi-implicit Euler step in three in-place passes. `sample` reads the positions as a circular wavetable. `strike` writes one period of a sine into the positions. `inject` does nothing.

Layout:

- `clamping.dfy` (module `Clamping`): the saturating clamp, `min(max(x, lo), hi)`.
- `ring.dfy` (module `Ring`): `N = 20`, the `Weight` datatype, ring index arithmetic with wrap-around, and rotation of the ring.
- `setters.dfy` (module `Setters`): what each setter stores, as functions on values.
- `dynamics.dfy` (module `Dynamics`): the clamped step size and the three passes of `update`, stated directly. It also holds the lemmas about them:
  - the order of the passes;
  - equal and opposite spring forces, whose sum around the ring is zero;
  - rotation invariance for uniform coefficients;
  - accelerations that are current after every update.
- `wavetable.dfy` (module `Wavetable`): `modf`, `sample` and the positions `strike` writes, with the interpolation lemmas.
- `mass_system.dfy` (module `FDM`): class `MassSystem`. It holds the weights and the three coefficient arrays as fixed-size arrays. Each mutating method updates them in place with the source's loops and is proved equal to the value-level definition.

`float` is modelled as `real`. All the properties below are algebraic, so they hold with exact arithmetic.

The sine comes from the C library call `sinf` and is not modelled. `strike` takes it as a parameter `sinTurns`, where `sinTurns(t)` stands for `sinf(t * 2 * M_PI)`.

Two facts about the code shape the model:

- `strike` (`src/FDM.cpp:86-90`) writes one period of a sine into the positions and reads neither `strength` nor `shape`.
- `sample` (`src/FDM.cpp:76-84`) does not wrap its phase. A phase in [0, 1) is the caller's obligation, so `sample` has it as a precondition.

## Model

| member | source | states |
|---|---|---|
| Clamping.Clamp | src/FDM.cpp:21-49 | the clamped value lies in [lo, hi]; it equals x when x is in range, lo when x is below and hi when x is above |
| Ring.Next | src/FDM.cpp:65 | (i+1) mod 20 is a valid index; it is i+1 below 19 and wraps from 19 to 0 |
| Ring.Prev | src/FDM.cpp:62 | the left neighbour of node 0 is node 19 and of any other node i is i-1 |
| Ring.NeighboursInverse | src/FDM.cpp:62-69 | left and right neighbour undo each other, so node 19 and node 0 are adjacent exactly like any other pair |
| Setters.WithMass | src/FDM.cpp:20-25 | the ring after setMass(m): every mass lies in [0.1, 5.0] and all masses are equal |
| Setters.Broadcast | src/FDM.cpp:27-46 | the array after setSpring, setCenter or setDamp: one value in every slot, inside [0, 5] |
| Setters.WithMassBroadcasts | src/FDM.cpp:20-25 | after setMass every mass equals clamp(m, 0.1, 5.0), all masses are equal, and positions, velocities and accelerations are untouched |
| Setters.WithMassIdempotent | src/FDM.cpp:20-25 | calling setMass twice with the same argument gives the same state as calling it once |
| Setters.BroadcastInRange | src/FDM.cpp:27-46 | setSpring, setCenter and setDamp leave a uniform array inside [0, 5], equal to the argument when it is in range and to the nearer bound otherwise |
| Dynamics.StepSize | src/FDM.cpp:49 | the effective step h lies in [0.001, 0.1] for every delta, and equals delta when delta is in range |
| Dynamics.Kick | src/FDM.cpp:51-54 | the first pass of update: velocity advanced by acceleration·h; mass, position and acceleration kept |
| Dynamics.Drift | src/FDM.cpp:56-59 | the second pass of update: position advanced by velocity·h; mass, velocity and acceleration kept |
| Dynamics.NetForce | src/FDM.cpp:62-68 | the force on node i from both neighbour springs, the centering spring and damping; a node resting at zero between neighbours at zero feels no force |
| Dynamics.Refresh | src/FDM.cpp:61-70 | the third pass of update: every acceleration becomes net force over mass; masses, positions and velocities kept, masses stay non-zero |
| Dynamics.Update | src/FDM.cpp:48-74 | the three passes in order with the clamped step; every mass is kept, so it stays non-zero |
| Dynamics.UpdatePassOrder | src/FDM.cpp:51-59 | new velocity = old velocity + old acceleration·h, then new position = old position + new velocity·h; mass is kept |
| Dynamics.NetForceIgnoresAcceleration | src/FDM.cpp:64-68 | the force on a node depends only on positions and velocities, never on the stored acceleration |
| Dynamics.RefreshLeavesAccelerationsCurrent | src/FDM.cpp:61-70 | after the third pass every acceleration equals (left + right + centering + damping force) / mass of the state it produced |
| Dynamics.UpdateLeavesAccelerationsCurrent | src/FDM.cpp:48-74 | every update ends in a state whose accelerations match its own positions and velocities, and keeps every mass non-zero |
| Dynamics.UpdatedAcceleration | src/FDM.cpp:61-70 | after update, node i's acceleration equals ((p[i-1]−p[i])·spring[i-1] + (p[i+1]−p[i])·spring[i] − p[i]·center[i] − v[i]·damp[i]) / mass[i] on the updated ring, indices mod 20 |
| Dynamics.LeftForceIsNegatedRight | src/FDM.cpp:62-69 | node i+1's left spring force is node i's right spring force negated, which justifies carrying `leftForce = -rightForce` |
| Dynamics.SpringForceSumTelescopes | src/FDM.cpp:62-69 | by induction over the nodes: the spring forces on nodes 0 .. k-1 sum to the right force of node k-1 minus the right force of node 19, because each spring's pull on its left end cancels its pull on its right end |
| Dynamics.SpringForcesCancel | src/FDM.cpp:62-69 | the spring forces on all 20 nodes sum to zero, including the spring closing node 19 to node 0 |
| Dynamics.MoveCommutesWithRotation | src/FDM.cpp:51-59 | the velocity and position passes commute with turning the ring by one node |
| Dynamics.NetForceOfRotation | src/FDM.cpp:64-68 | with uniform coefficients the force on node i of the turned ring is the force on node i+1 of the original |
| Dynamics.RefreshCommutesWithRotation | src/FDM.cpp:61-70 | with uniform coefficients the acceleration pass commutes with turning the ring |
| Dynamics.UpdateCommutesWithRotation | src/FDM.cpp:48-74 | with uniform coefficients (which every setter leaves) update has no distinguished node: turning then updating equals updating then turning |
| Dynamics.RestIsFixedPoint | src/FDM.cpp:48-74 | a ring with zero positions, velocities and accelerations is left unchanged by update |
| Wavetable.Modf | src/FDM.cpp:79 | for non-negative x, the whole part is the floor of x and the fractional part is x minus it, in [0, 1) |
| Wavetable.SampleIndex | src/FDM.cpp:77-81 | for phase in [0, 1) the node index is below 20 and phase lies in [index/20, (index+1)/20) |
| Wavetable.Sample | src/FDM.cpp:76-84 | the amplitude at a phase in [0, 1): linear interpolation between the node modf selects and its right neighbour; a ring with every node at one position samples to that position |
| Wavetable.SampleOnSegment | src/FDM.cpp:76-84 | on each segment [k/20, (k+1)/20) sample is the straight line from node k's position to node (k+1) mod 20's |
| Wavetable.SampleAtNode | src/FDM.cpp:76-84 | at phase k/20, where the fractional part is zero, sample returns node k's position exactly |
| Wavetable.SampleWrapsAround | src/FDM.cpp:82 | a phase in [0.95, 1) reads node 19 and node 0 |
| Wavetable.SampleIsConvex | src/FDM.cpp:82 | the amplitude is a convex combination of the two nodes read, so it lies between their positions |
| Wavetable.Struck | src/FDM.cpp:86-90 | the ring after strike: position i is the sine at i/20; mass, velocity and acceleration kept |
| Wavetable.StruckKeepsMotion | src/FDM.cpp:86-90 | after strike position i is the sine at i/20, whatever the old positions; mass, velocity and acceleration are untouched |
| Wavetable.StruckIdempotent | src/FDM.cpp:86-90 | striking twice is the same as striking once |
| Wavetable.StruckHalfTurn | src/FDM.cpp:88 | since sin(x + π) = -sin(x), nodes half a ring apart are struck to negated positions |
| Wavetable.SampleHalfTurn | src/FDM.cpp:76-84 | on a ring whose opposite nodes are negated, sample(phase + 1/2) = -sample(phase) |
| Wavetable.SampleOfStruckHalfTurn | src/FDM.cpp:76-90 | right after a strike the output over the second half period is the negated output over the first half |
| FDM.MassSystem.constructor | src/FDM.cpp:15-18 | every weight and coefficient starts at zero; the object invariant holds |
| FDM.MassSystem.SetMass | src/FDM.cpp:20-25 | the weights become WithMass(old weights, mass); every mass is in [0.1, 5.0]; the coefficient arrays are not modified |
| FDM.MassSystem.SetSpring | src/FDM.cpp:27-32 | spring becomes the clamped argument in all 20 slots; weights, center and damp are unchanged |
| FDM.MassSystem.SetCenter | src/FDM.cpp:34-39 | center becomes the clamped argument in all 20 slots; weights, spring and damp are unchanged |
| FDM.MassSystem.SetDamp | src/FDM.cpp:41-46 | damp becomes the clamped argument in all 20 slots; weights, spring and center are unchanged |
| FDM.MassSystem.Update | src/FDM.cpp:48-74 | the weights become Dynamics.Update(old weights, spring, center, damp, delta); the coefficient arrays are not modified |
| FDM.MassSystem.AdvanceVelocities | src/FDM.cpp:51-54 | the first loop adds acceleration·h to every velocity and changes nothing else |
| FDM.MassSystem.AdvancePositions | src/FDM.cpp:56-59 | the second loop adds velocity·h to every position and changes nothing else |
| FDM.MassSystem.RefreshAccelerations | src/FDM.cpp:61-70 | the third loop, which carries leftForce, gives every node the directly stated net force over its mass; the loop invariant is leftForce = (position[i-1 mod 20] − position[i])·spring[i-1 mod 20] |
| FDM.MassSystem.RefreshNode | src/FDM.cpp:64-69 | one iteration of the third loop: node i gets the acceleration Refresh gives it, every other node is unchanged, and the returned right force is the value-level right force the loop negates into the next leftForce |
| FDM.MassSystem.ForcesAt | src/FDM.cpp:65-67 | the right, centering and damping force computed on the array cells equal the value-level forces |
| FDM.MassSystem.Sample | src/FDM.cpp:76-84 | returns Wavetable.Sample of the current weights and changes nothing |
| FDM.MassSystem.Strike | src/FDM.cpp:86-90 | the weights become Wavetable.Struck(old weights); neither argument is read |
| FDM.MassSystem.Inject | src/FDM.cpp:92 | nothing changes |

## Left out

- `FDM::step` (src/FDM.cpp:152-188) is the host glue that calls the core. It is not modelled, and neither is what it contains: pitch-to-frequency conversion, phase accumulators, trigger edge detection, output scaling and lights. Its calls into the core are the methods of `MassSystem`.
- The `FDM` module's parameter and port enums and the `FDMWidget` panel (src/FDM.cpp:96-149 and 191-236) hold no simulation logic.
- IEEE-754 rounding, NaN and infinity are not modelled, because floats are modelled as exact reals.
- FDM.MassSystem.Update: requires every mass to be non-zero. Weights start at zero, so an update before the first setMass divides by zero, which the source turns into infinity or NaN. Reals cannot express that. The one caller, `FDM::step`, always calls setMass just before update (src/FDM.cpp:174-179), and every later mass is at least 0.1.
- FDM.MassSystem.Update: the source's single function with three loops is modelled as three helper methods, one per loop, called in the source's order. The body of the third loop is a further method, RefreshNode, called once per iteration.
- FDM.MassSystem.Sample: requires phase in [0, 1). For phase >= 1 or phase <= -1/20 the source indexes past the array. For -1/20 < phase < 0, `modf` gives whole part -0.0 and a negative fraction, so the source reads nodes 0 and 1 and extrapolates beyond them (phase -0.01 gives 1.2·p0 - 0.2·p1). The model does not cover that range. `FDM::step` only passes a phase in [0, 1) (src/FDM.cpp:163-165, 184).
- FDM.MassSystem.Strike: the value of `sinf` and of `M_PI` is not modelled. The sine is a parameter `sinTurns`, with `sinTurns(t)` standing for `sinf(t * 2 * M_PI)`.
- Wavetable.StruckHalfTurn: takes sin(x + π) = -sin(x) as a precondition on `sinTurns`, because the sine itself is not modelled.
- Wavetable.SampleOfStruckHalfTurn: takes sin(x + π) = -sin(x) as a precondition on that parameter, because the sine itself is not modelled.
- Energy decay, stability and oscillation period are numerical properties of floating-point integration. The code does not state them, so they are not modelled.
- The `uint8_t` and `int32_t` widths of `nWeights` and the sample index play no role for a 20-node ring, so they are not modelled.
