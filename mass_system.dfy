/** The oscillator's state object: N weights and three per-node coefficient
    arrays, all fixed-size and updated in place. Every method is proved
    against the value-level definitions in Setters, Dynamics and Wavetable. */
module FDM {
  import opened Ring
  import opened Clamping
  import Setters
  import Dynamics
  import Wavetable

  class MassSystem {
    const weights: array<Weight>
    const spring: array<real>
    const center: array<real>
    const damp: array<real>

    /** Object invariant. Besides the shape of the arrays it records what the
        broadcasting setters guarantee from construction on: every coefficient
        array holds one value, inside [0, 5], and all masses are equal. */
    ghost predicate Valid()
      reads weights, spring, center, damp
    {
      weights.Length == N && spring.Length == N && center.Length == N && damp.Length == N &&
      spring != center && spring != damp && center != damp &&
      Uniform(spring[..]) && Within(spring[..], Setters.MinCoeff, Setters.MaxCoeff) &&
      Uniform(center[..]) && Within(center[..], Setters.MinCoeff, Setters.MaxCoeff) &&
      Uniform(damp[..]) && Within(damp[..], Setters.MinCoeff, Setters.MaxCoeff) &&
      forall i :: 0 <= i < N ==> weights[i].mass == weights[0].mass
    }

    /** The weights as a value. */
    ghost function State(): Ring.Nodes
      reads weights, spring, center, damp
      requires Valid()
    {
      weights[..]
    }

    /** Every field starts at zero. */
    constructor ()
      ensures Valid()
      ensures fresh(weights) && fresh(spring) && fresh(center) && fresh(damp)
      ensures forall i :: 0 <= i < N ==> weights[i] == Rest
      ensures forall i :: 0 <= i < N ==> spring[i] == 0.0 && center[i] == 0.0 && damp[i] == 0.0
    {
      weights := new Weight[N](_ => Rest);
      spring := new real[N](_ => 0.0);
      center := new real[N](_ => 0.0);
      damp := new real[N](_ => 0.0);
    }

    /** setMass: every mass becomes clamp(mass, 0.1, 5.0); nothing else changes. */
    method SetMass(mass: real)
      requires Valid()
      modifies weights
      ensures Valid()
      ensures State() == Setters.WithMass(old(State()), mass)
      ensures forall i :: 0 <= i < N ==> Setters.MinMass <= weights[i].mass <= Setters.MaxMass
    {
      var m := Clamp(mass, Setters.MinMass, Setters.MaxMass);
      for i := 0 to N
        invariant forall j :: 0 <= j < i ==> weights[j] == old(weights[j]).(mass := m)
        invariant forall j :: i <= j < N ==> weights[j] == old(weights[j])
      {
        weights[i] := weights[i].(mass := m);
      }
    }

    /** setSpring: every spring coefficient becomes clamp(s, 0, 5); nothing else changes. */
    method SetSpring(s: real)
      requires Valid()
      modifies spring
      ensures Valid()
      ensures spring[..] == Setters.Broadcast(s)
      ensures weights[..] == old(weights[..]) && center[..] == old(center[..]) && damp[..] == old(damp[..])
    {
      var c := Clamp(s, Setters.MinCoeff, Setters.MaxCoeff);
      for i := 0 to N
        invariant forall j :: 0 <= j < i ==> spring[j] == c
        invariant forall j :: i <= j < N ==> spring[j] == old(spring[j])
      {
        spring[i] := c;
      }
      Setters.BroadcastInRange(s);
    }

    /** setCenter: every centering coefficient becomes clamp(c, 0, 5); nothing else changes. */
    method SetCenter(c: real)
      requires Valid()
      modifies center
      ensures Valid()
      ensures center[..] == Setters.Broadcast(c)
      ensures weights[..] == old(weights[..]) && spring[..] == old(spring[..]) && damp[..] == old(damp[..])
    {
      var v := Clamp(c, Setters.MinCoeff, Setters.MaxCoeff);
      for i := 0 to N
        invariant forall j :: 0 <= j < i ==> center[j] == v
        invariant forall j :: i <= j < N ==> center[j] == old(center[j])
      {
        center[i] := v;
      }
      Setters.BroadcastInRange(c);
    }

    /** setDamp: every damping coefficient becomes clamp(d, 0, 5); nothing else changes. */
    method SetDamp(d: real)
      requires Valid()
      modifies damp
      ensures Valid()
      ensures damp[..] == Setters.Broadcast(d)
      ensures weights[..] == old(weights[..]) && spring[..] == old(spring[..]) && center[..] == old(center[..])
    {
      var v := Clamp(d, Setters.MinCoeff, Setters.MaxCoeff);
      for i := 0 to N
        invariant forall j :: 0 <= j < i ==> damp[j] == v
        invariant forall j :: i <= j < N ==> damp[j] == old(damp[j])
      {
        damp[i] := v;
      }
      Setters.BroadcastInRange(d);
    }

    /** update: one semi-implicit Euler step of size clamp(delta, 0.001, 0.1),
        as three passes over the ring in this order. */
    method Update(delta: real)
      requires Valid()
      requires Dynamics.MassesNonzero(State())
      modifies weights
      ensures Valid()
      ensures State() == Dynamics.Update(old(State()), spring[..], center[..], damp[..], delta)
    {
      var h := Clamp(delta, Dynamics.MinStep, Dynamics.MaxStep);
      AdvanceVelocities(h);
      AdvancePositions(h);
      RefreshAccelerations();
    }

    /** First loop of update: velocity from the previous acceleration. */
    method AdvanceVelocities(h: real)
      requires Valid()
      modifies weights
      ensures Valid()
      ensures State() == Dynamics.Kick(old(State()), h)
    {
      for i := 0 to N
        invariant forall j :: 0 <= j < i ==> weights[j] == Dynamics.Kick(old(State()), h)[j]
        invariant forall j :: i <= j < N ==> weights[j] == old(weights[j])
      {
        weights[i] := weights[i].(velocity := weights[i].velocity + weights[i].acceleration * h);
      }
    }

    /** Second loop of update: position from the new velocity. */
    method AdvancePositions(h: real)
      requires Valid()
      modifies weights
      ensures Valid()
      ensures State() == Dynamics.Drift(old(State()), h)
    {
      for i := 0 to N
        invariant forall j :: 0 <= j < i ==> weights[j] == Dynamics.Drift(old(State()), h)[j]
        invariant forall j :: i <= j < N ==> weights[j] == old(weights[j])
      {
        weights[i] := weights[i].(position := weights[i].position + weights[i].velocity * h);
      }
    }

    /** Third loop of update: acceleration from the spring, centering and damping
        forces. The left spring force is carried from each node to the next
        instead of being recomputed; the invariant on leftForce shows it is the
        directly stated left force at every node, node 0 included. */
    method RefreshAccelerations()
      requires Valid()
      requires Dynamics.MassesNonzero(State())
      modifies weights
      ensures Valid()
      ensures State() == Dynamics.Refresh(old(State()), spring[..], center[..], damp[..])
    {
      ghost var moved := State();
      ghost var target := Dynamics.Refresh(moved, spring[..], center[..], damp[..]);
      var leftForce := (weights[N - 1].position - weights[0].position) * spring[N - 1];
      for i := 0 to N
        invariant forall j :: 0 <= j < N ==>
          weights[j] == moved[j].(acceleration := weights[j].acceleration)
        invariant forall j :: 0 <= j < i ==> weights[j] == target[j]
        invariant forall j :: i <= j < N ==> weights[j] == moved[j]
        invariant i < N ==> leftForce == Dynamics.LeftForce(moved, spring[..], i)
      {
        var rightForce := RefreshNode(i, leftForce, moved);
        leftForce := rightForce * -1.0;
        if i + 1 < N {
          Dynamics.LeftForceIsNegatedRight(moved, spring[..], i);
        }
      }
    }

    /** One iteration of the third loop: node i's acceleration from the carried
        left force and the right, centering and damping forces read from the
        arrays. The right force is returned so the loop can carry it on. */
    method RefreshNode(i: nat, leftForce: real, ghost moved: Ring.Nodes) returns (rightForce: real)
      requires weights.Length == N && spring.Length == N && center.Length == N && damp.Length == N
      requires i < N && Dynamics.MassesNonzero(moved)
      requires forall j :: 0 <= j < N ==> weights[j] == moved[j].(acceleration := weights[j].acceleration)
      requires leftForce == Dynamics.LeftForce(moved, spring[..], i)
      modifies weights
      ensures weights[i] == Dynamics.Refresh(moved, spring[..], center[..], damp[..])[i]
      ensures forall j :: 0 <= j < N && j != i ==> weights[j] == old(weights[j])
      ensures rightForce == Dynamics.RightForce(moved, spring[..], i)
    {
      ForcesAt(moved, i);
      rightForce := (weights[(i + 1) % N].position - weights[i].position) * spring[i];
      var centerForce := -1.0 * weights[i].position * center[i];
      var dampForce := -1.0 * weights[i].velocity * damp[i];
      assert weights[i].mass == moved[i].mass;
      weights[i] := weights[i].(acceleration := (leftForce + rightForce + centerForce + dampForce) / weights[i].mass);
    }

    /** Ties the arithmetic on the array cells at node i to the forces of the
        value-level ring, cell by cell. */
    lemma ForcesAt(moved: Ring.Nodes, i: nat)
      requires weights.Length == N && spring.Length == N && center.Length == N && damp.Length == N
      requires i < N
      requires forall j :: 0 <= j < N ==> weights[j].position == moved[j].position && weights[j].velocity == moved[j].velocity
      ensures (weights[(i + 1) % N].position - weights[i].position) * spring[i] == Dynamics.RightForce(moved, spring[..], i)
      ensures -1.0 * weights[i].position * center[i] == Dynamics.CenterForce(moved, center[..], i)
      ensures -1.0 * weights[i].velocity * damp[i] == Dynamics.DampForce(moved, damp[..], i)
    {
      var p, pn, v := weights[i].position, weights[(i + 1) % N].position, weights[i].velocity;
      assert p == moved[i].position && pn == moved[Next(i)].position && v == moved[i].velocity;
      var k, c, d := spring[i], center[i], damp[i];
      assert k == spring[..][i] && c == center[..][i] && d == damp[..][i];
    }

    /** sample: the ring read as a circular wavetable at a phase in [0, 1).
        Reads the state and changes nothing. */
    method Sample(phase: real) returns (amplitude: real)
      requires Valid()
      requires 0.0 <= phase < 1.0
      ensures amplitude == Wavetable.Sample(weights[..], phase)
    {
      var indexMix := phase * N as real;
      var parts := Wavetable.Modf(indexMix);
      var index := parts.whole;
      var indexFrac := parts.frac;
      amplitude := weights[index].position * (1.0 - indexFrac) + weights[(index + 1) % N].position * indexFrac;
    }

    /** strike: every position overwritten with one period of a sine. Neither the
        strength nor the shape argument is read. sinTurns(t) stands for the
        library call sinf(t * 2 * M_PI). */
    method Strike(strength: real, shape: real, sinTurns: real -> real)
      requires Valid()
      modifies weights
      ensures Valid()
      ensures State() == Wavetable.Struck(old(State()), sinTurns)
    {
      for i := 0 to N
        invariant forall j :: 0 <= j < i ==> weights[j] == old(weights[j]).(position := sinTurns(j as real / N as real))
        invariant forall j :: i <= j < N ==> weights[j] == old(weights[j])
      {
        weights[i] := weights[i].(position := sinTurns(i as real / N as real));
      }
    }

    /** inject: does nothing. */
    method Inject()
      ensures unchanged(weights, spring, center, damp)
    {
    }
  }
}
