/** What the four coefficient setters store: the clamped argument, copied
    into every one of the N slots. */
module Setters {
  import opened Ring
  import opened Clamping

  const MinMass: real := 0.1
  const MaxMass: real := 5.0
  /** spring, center and damp share one range. */
  const MinCoeff: real := 0.0
  const MaxCoeff: real := 5.0

  /** The ring after setMass(m): every mass replaced by the clamped m. */
  function WithMass(ws: Nodes, m: real): (r: Nodes)
    ensures forall i :: 0 <= i < N ==> MinMass <= r[i].mass <= MaxMass && r[i].mass == r[0].mass
  {
    seq(N, i requires 0 <= i < N => ws[i].(mass := Clamp(m, MinMass, MaxMass)))
  }

  /** The coefficient array after setSpring, setCenter or setDamp with argument c. */
  function Broadcast(c: real): (r: Coeffs)
    ensures Uniform(r) && Within(r, MinCoeff, MaxCoeff)
  {
    seq(N, _ => Clamp(c, MinCoeff, MaxCoeff))
  }

  /** setMass stores clamp(m, 0.1, 5.0) in all slots and touches nothing but the masses. */
  lemma WithMassBroadcasts(ws: Nodes, m: real, i: nat)
    requires i < N
    ensures MinMass <= WithMass(ws, m)[i].mass <= MaxMass
    ensures WithMass(ws, m)[i].mass == WithMass(ws, m)[0].mass
    ensures MinMass <= m <= MaxMass ==> WithMass(ws, m)[i].mass == m
    ensures m < MinMass ==> WithMass(ws, m)[i].mass == MinMass
    ensures MaxMass < m ==> WithMass(ws, m)[i].mass == MaxMass
    ensures WithMass(ws, m)[i].position == ws[i].position
    ensures WithMass(ws, m)[i].velocity == ws[i].velocity
    ensures WithMass(ws, m)[i].acceleration == ws[i].acceleration
  {
  }

  /** Calling setMass twice with the same argument leaves the state of calling it once. */
  lemma WithMassIdempotent(ws: Nodes, m: real)
    ensures WithMass(WithMass(ws, m), m) == WithMass(ws, m)
  {
  }

  /** The coefficient setters leave a uniform array inside [0, 5], equal to c when c is in range. */
  lemma BroadcastInRange(c: real)
    ensures Uniform(Broadcast(c)) && Within(Broadcast(c), MinCoeff, MaxCoeff)
    ensures MinCoeff <= c <= MaxCoeff ==> forall i :: 0 <= i < N ==> Broadcast(c)[i] == c
    ensures c < MinCoeff ==> forall i :: 0 <= i < N ==> Broadcast(c)[i] == MinCoeff
    ensures MaxCoeff < c ==> forall i :: 0 <= i < N ==> Broadcast(c)[i] == MaxCoeff
  {
  }
}
