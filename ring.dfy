/** The closed ring of weights: its size, its nodes and its index arithmetic.
    Node N-1 is joined to node 0 exactly as any other adjacent pair. */
module Ring {

  /** Number of weights on the ring (nWeights). */
  const N: nat := 20

  /** One mass point of the ring. Floating-point fields are modelled as reals. */
  datatype Weight = Weight(mass: real, position: real, velocity: real, acceleration: real)

  /** The all-zero weight every slot holds before any setter runs. */
  const Rest: Weight := Weight(0.0, 0.0, 0.0, 0.0)

  /** The state of a whole ring, one weight per index. */
  type Nodes = s: seq<Weight> | |s| == N witness seq(N, _ => Rest)

  /** One coefficient per ring index (spring, center or damp). */
  type Coeffs = s: seq<real> | |s| == N witness seq(N, _ => 0.0)

  /** The right-hand neighbour of node i, wrapping from N-1 to 0. */
  function Next(i: nat): (j: nat)
    requires i < N
    ensures j < N
    ensures i < N - 1 ==> j == i + 1
    ensures i == N - 1 ==> j == 0
  {
    (i + 1) % N
  }

  /** The left-hand neighbour of node i, wrapping from 0 to N-1. */
  function Prev(i: nat): (j: nat)
    requires i < N
    ensures j < N
    ensures 0 < i ==> j == i - 1
    ensures i == 0 ==> j == N - 1
  {
    (i + N - 1) % N
  }

  /** Prev and Next undo each other, so every node has exactly one left and one right neighbour. */
  lemma NeighboursInverse(i: nat)
    requires i < N
    ensures Prev(Next(i)) == i && Next(Prev(i)) == i
  {
  }

  /** Every slot holds the same coefficient, as after a broadcasting setter. */
  predicate Uniform(s: Coeffs)
  {
    forall i :: 0 <= i < N ==> s[i] == s[0]
  }

  /** Every slot lies in [lo, hi]. */
  predicate Within(s: Coeffs, lo: real, hi: real)
  {
    forall i :: 0 <= i < N ==> lo <= s[i] <= hi
  }

  /** The ring turned by one index: node i of the result is node i+1 (mod N) of s. */
  function Rotate<T>(s: seq<T>): (r: seq<T>)
    requires |s| == N
    ensures |r| == N
    ensures forall i :: 0 <= i < N ==> r[i] == s[Next(i)]
  {
    s[1..] + [s[0]]
  }
}
