/** One integration step of the ring: semi-implicit Euler with
    nearest-neighbour springs, a centering spring and velocity damping.
    These functions are the reference the in-place update is proved against;
    in particular NetForce states both neighbour terms directly, where the
    update loop carries the left term over from the previous node. */
module Dynamics {
  import opened Ring
  import opened Clamping

  const MinStep: real := 0.001
  const MaxStep: real := 0.1

  /** The effective step h used by update for a caller-supplied delta. */
  function StepSize(delta: real): (h: real)
    ensures MinStep <= h <= MaxStep
    ensures MinStep <= delta <= MaxStep ==> h == delta
    ensures delta < MinStep ==> h == MinStep
    ensures MaxStep < delta ==> h == MaxStep
  {
    Clamp(delta, MinStep, MaxStep)
  }

  /** First pass: every velocity advanced by the previous acceleration. */
  function Kick(ws: Nodes, h: real): (r: Nodes)
    ensures forall i {:trigger r[i]} :: 0 <= i < N ==>
      r[i].mass == ws[i].mass && r[i].position == ws[i].position && r[i].acceleration == ws[i].acceleration
  {
    seq(N, i requires 0 <= i < N => ws[i].(velocity := ws[i].velocity + ws[i].acceleration * h))
  }

  /** Second pass: every position advanced by the (already updated) velocity. */
  function Drift(ws: Nodes, h: real): (r: Nodes)
    ensures forall i {:trigger r[i]} :: 0 <= i < N ==>
      r[i].mass == ws[i].mass && r[i].velocity == ws[i].velocity && r[i].acceleration == ws[i].acceleration
  {
    seq(N, i requires 0 <= i < N => ws[i].(position := ws[i].position + ws[i].velocity * h))
  }

  /** Pull of the spring between node i and its left neighbour. */
  function LeftForce(ws: Nodes, spring: Coeffs, i: nat): real
    requires i < N
  {
    (ws[Prev(i)].position - ws[i].position) * spring[Prev(i)]
  }

  /** Pull of the spring between node i and its right neighbour. */
  function RightForce(ws: Nodes, spring: Coeffs, i: nat): real
    requires i < N
  {
    (ws[Next(i)].position - ws[i].position) * spring[i]
  }

  function CenterForce(ws: Nodes, center: Coeffs, i: nat): real
    requires i < N
  {
    -1.0 * ws[i].position * center[i]
  }

  function DampForce(ws: Nodes, damp: Coeffs, i: nat): real
    requires i < N
  {
    -1.0 * ws[i].velocity * damp[i]
  }

  /** The force on node i: both springs, the centering spring and the damping.
      A node resting at zero between neighbours at zero feels no force. */
  function NetForce(ws: Nodes, spring: Coeffs, center: Coeffs, damp: Coeffs, i: nat): (f: real)
    requires i < N
    ensures (ws[Prev(i)].position == 0.0 && ws[i].position == 0.0 && ws[Next(i)].position == 0.0 &&
             ws[i].velocity == 0.0) ==> f == 0.0
  {
    LeftForce(ws, spring, i) + RightForce(ws, spring, i) + CenterForce(ws, center, i) + DampForce(ws, damp, i)
  }

  predicate MassesNonzero(ws: Nodes)
  {
    forall i :: 0 <= i < N ==> ws[i].mass != 0.0
  }

  /** Third pass: every acceleration recomputed from the current positions and velocities. */
  function Refresh(ws: Nodes, spring: Coeffs, center: Coeffs, damp: Coeffs): (r: Nodes)
    requires MassesNonzero(ws)
    ensures MassesNonzero(r)
    ensures forall i {:trigger r[i]} :: 0 <= i < N ==>
      r[i].mass == ws[i].mass && r[i].position == ws[i].position && r[i].velocity == ws[i].velocity
  {
    seq(N, i requires 0 <= i < N => ws[i].(acceleration := NetForce(ws, spring, center, damp, i) / ws[i].mass))
  }

  /** The ring after update(delta): the three passes in order. */
  function Update(ws: Nodes, spring: Coeffs, center: Coeffs, damp: Coeffs, delta: real): (r: Nodes)
    requires MassesNonzero(ws)
    ensures MassesNonzero(r)
    ensures forall i {:trigger r[i]} :: 0 <= i < N ==> r[i].mass == ws[i].mass
  {
    var h := StepSize(delta);
    var moved := Drift(Kick(ws, h), h);
    assert forall i :: 0 <= i < N ==> moved[i].mass == ws[i].mass;
    Refresh(moved, spring, center, damp)
  }

  /** Every stored acceleration is the one the forces of the current state give. */
  ghost predicate AccelerationsCurrent(ws: Nodes, spring: Coeffs, center: Coeffs, damp: Coeffs)
    requires MassesNonzero(ws)
  {
    forall i {:trigger NetForce(ws, spring, center, damp, i)} :: 0 <= i < N ==>
      ws[i].acceleration == NetForce(ws, spring, center, damp, i) / ws[i].mass
  }

  /** The spring between i and i+1 pulls on its two ends with equal and opposite
      force: node i+1's left force is node i's right force negated. This is
      what lets update carry leftForce from one node to the next. */
  lemma LeftForceIsNegatedRight(ws: Nodes, spring: Coeffs, i: nat)
    requires i < N
    ensures LeftForce(ws, spring, Next(i)) == -RightForce(ws, spring, i)
  {
    NeighboursInverse(i);
  }

  /** The order of the passes: velocity from the old acceleration, then position
      from the new velocity; mass is kept. */
  lemma UpdatePassOrder(ws: Nodes, spring: Coeffs, center: Coeffs, damp: Coeffs, delta: real, i: nat)
    requires MassesNonzero(ws) && i < N
    ensures Update(ws, spring, center, damp, delta)[i].velocity
         == ws[i].velocity + ws[i].acceleration * StepSize(delta)
    ensures Update(ws, spring, center, damp, delta)[i].position
         == ws[i].position + Update(ws, spring, center, damp, delta)[i].velocity * StepSize(delta)
    ensures Update(ws, spring, center, damp, delta)[i].mass == ws[i].mass
  {
  }

  /** Forces read only positions and velocities, never the stored acceleration. */
  lemma NetForceIgnoresAcceleration(a: Nodes, b: Nodes, spring: Coeffs, center: Coeffs, damp: Coeffs, i: nat)
    requires i < N
    requires forall j :: 0 <= j < N ==> a[j].position == b[j].position && a[j].velocity == b[j].velocity
    ensures NetForce(a, spring, center, damp, i) == NetForce(b, spring, center, damp, i)
  {
  }

  /** Refreshing one node gives it the acceleration the refreshed ring's own forces
      give, because forces read only positions and velocities. */
  lemma RefreshAt(ws: Nodes, spring: Coeffs, center: Coeffs, damp: Coeffs, i: nat)
    requires MassesNonzero(ws) && i < N
    ensures Refresh(ws, spring, center, damp)[i].mass != 0.0
    ensures Refresh(ws, spring, center, damp)[i].acceleration
         == NetForce(Refresh(ws, spring, center, damp), spring, center, damp, i) / Refresh(ws, spring, center, damp)[i].mass
  {
    var r := Refresh(ws, spring, center, damp);
    assert forall j :: 0 <= j < N ==> r[j].position == ws[j].position && r[j].velocity == ws[j].velocity;
    NetForceIgnoresAcceleration(r, ws, spring, center, damp, i);
  }

  /** The last pass leaves every acceleration current. */
  lemma RefreshLeavesAccelerationsCurrent(ws: Nodes, spring: Coeffs, center: Coeffs, damp: Coeffs)
    requires MassesNonzero(ws)
    ensures MassesNonzero(Refresh(ws, spring, center, damp))
    ensures AccelerationsCurrent(Refresh(ws, spring, center, damp), spring, center, damp)
  {
    forall i | 0 <= i < N
      ensures Refresh(ws, spring, center, damp)[i].mass != 0.0
    {
      RefreshAt(ws, spring, center, damp, i);
    }
    forall i | 0 <= i < N
      ensures Refresh(ws, spring, center, damp)[i].acceleration
           == NetForce(Refresh(ws, spring, center, damp), spring, center, damp, i) / Refresh(ws, spring, center, damp)[i].mass
    {
      RefreshAt(ws, spring, center, damp, i);
    }
  }

  /** So update always ends in a state whose accelerations are current. */
  lemma UpdateLeavesAccelerationsCurrent(ws: Nodes, spring: Coeffs, center: Coeffs, damp: Coeffs, delta: real)
    requires MassesNonzero(ws)
    ensures MassesNonzero(Update(ws, spring, center, damp, delta))
    ensures AccelerationsCurrent(Update(ws, spring, center, damp, delta), spring, center, damp)
  {
    var h := StepSize(delta);
    var moved := Drift(Kick(ws, h), h);
    assert forall i :: 0 <= i < N ==> moved[i].mass == ws[i].mass;
    RefreshLeavesAccelerationsCurrent(moved, spring, center, damp);
  }

  /** After update, node i's acceleration is the source's explicit formula
      evaluated on the updated ring: both spring pulls, minus the centering and
      damping terms, over the mass. */
  lemma UpdatedAcceleration(ws: Nodes, spring: Coeffs, center: Coeffs, damp: Coeffs, delta: real, i: nat)
    requires MassesNonzero(ws) && i < N
    ensures var r := Update(ws, spring, center, damp, delta);
      r[i].mass != 0.0 &&
      r[i].acceleration
        == ((r[Prev(i)].position - r[i].position) * spring[Prev(i)]
            + (r[Next(i)].position - r[i].position) * spring[i]
            - r[i].position * center[i] - r[i].velocity * damp[i]) / r[i].mass
  {
    UpdateLeavesAccelerationsCurrent(ws, spring, center, damp, delta);
    var r := Update(ws, spring, center, damp, delta);
    assert r[i].acceleration == NetForce(r, spring, center, damp, i) / r[i].mass;
  }

  /** Sum of the two spring forces over nodes 0 .. k-1. */
  function SpringForceSum(ws: Nodes, spring: Coeffs, k: nat): real
    requires k <= N
  {
    if k == 0 then 0.0
    else SpringForceSum(ws, spring, k - 1) + LeftForce(ws, spring, k - 1) + RightForce(ws, spring, k - 1)
  }

  lemma {:induction false} SpringForceSumTelescopes(ws: Nodes, spring: Coeffs, k: nat)
    requires 1 <= k <= N
    ensures SpringForceSum(ws, spring, k) == RightForce(ws, spring, k - 1) - RightForce(ws, spring, N - 1)
  {
    if k == 1 {
      LeftForceIsNegatedRight(ws, spring, N - 1);
    } else {
      SpringForceSumTelescopes(ws, spring, k - 1);
      LeftForceIsNegatedRight(ws, spring, k - 2);
    }
  }

  /** The ring's springs exert no net force on the ring as a whole: each spring's
      pulls on its two ends cancel, including the one closing node N-1 to node 0. */
  lemma SpringForcesCancel(ws: Nodes, spring: Coeffs)
    ensures SpringForceSum(ws, spring, N) == 0.0
  {
    SpringForceSumTelescopes(ws, spring, N);
  }

  /** The first two passes act node by node, so they commute with turning the ring. */
  lemma MoveCommutesWithRotation(ws: Nodes, h: real)
    ensures Drift(Kick(Rotate(ws), h), h) == Rotate(Drift(Kick(ws, h), h))
  {
    var lhs := Drift(Kick(Rotate(ws), h), h);
    var rhs := Rotate(Drift(Kick(ws, h), h));
    forall i | 0 <= i < N
      ensures lhs[i] == rhs[i]
    {
      assert Kick(Rotate(ws), h)[i] == Kick(ws, h)[Next(i)];
    }
  }

  /** With uniform coefficients the force on node i of the turned ring is the
      force on node i+1 of the original. */
  lemma NetForceOfRotation(ws: Nodes, spring: Coeffs, center: Coeffs, damp: Coeffs, i: nat)
    requires i < N
    requires Uniform(spring) && Uniform(center) && Uniform(damp)
    ensures NetForce(Rotate(ws), spring, center, damp, i) == NetForce(ws, spring, center, damp, Next(i))
  {
    NeighboursInverse(i);
    var rotated: Nodes := Rotate(ws);
    assert rotated[Prev(i)] == ws[Prev(Next(i))];
    assert rotated[Next(i)] == ws[Next(Next(i))];
  }

  lemma RefreshCommutesWithRotation(ws: Nodes, spring: Coeffs, center: Coeffs, damp: Coeffs)
    requires MassesNonzero(ws)
    requires Uniform(spring) && Uniform(center) && Uniform(damp)
    ensures MassesNonzero(Rotate(ws))
    ensures Refresh(Rotate(ws), spring, center, damp) == Rotate(Refresh(ws, spring, center, damp))
  {
    var lhs := Refresh(Rotate(ws), spring, center, damp);
    var rhs := Rotate(Refresh(ws, spring, center, damp));
    forall i | 0 <= i < N
      ensures lhs[i] == rhs[i]
    {
      NetForceOfRotation(ws, spring, center, damp, i);
    }
  }

  /** With uniform coefficients the ring has no distinguished node: turning the
      ring by one index and then updating is the same as updating and then turning. */
  lemma UpdateCommutesWithRotation(ws: Nodes, spring: Coeffs, center: Coeffs, damp: Coeffs, delta: real)
    requires MassesNonzero(ws)
    requires Uniform(spring) && Uniform(center) && Uniform(damp)
    ensures MassesNonzero(Rotate(ws))
    ensures Update(Rotate(ws), spring, center, damp, delta) == Rotate(Update(ws, spring, center, damp, delta))
  {
    var h := StepSize(delta);
    var moved := Drift(Kick(ws, h), h);
    assert forall i :: 0 <= i < N ==> moved[i].mass == ws[i].mass;
    MoveCommutesWithRotation(ws, h);
    RefreshCommutesWithRotation(moved, spring, center, damp);
  }

  /** A ring at rest (no displacement, velocity or acceleration) stays at rest. */
  lemma RestIsFixedPoint(ws: Nodes, spring: Coeffs, center: Coeffs, damp: Coeffs, delta: real)
    requires MassesNonzero(ws)
    requires forall i :: 0 <= i < N ==> ws[i].position == 0.0 && ws[i].velocity == 0.0 && ws[i].acceleration == 0.0
    ensures Update(ws, spring, center, damp, delta) == ws
  {
    var r := Update(ws, spring, center, damp, delta);
    forall i | 0 <= i < N
      ensures r[i] == ws[i]
    {
    }
  }
}
