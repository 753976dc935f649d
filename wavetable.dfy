/** The ring read as one period of a waveform: sample interpolates linearly
    between adjacent node positions, and strike writes one period of a sine
    into the positions. */
module Wavetable {
  import opened Ring
  import opened Clamping

  /** Whole and fractional part of a number, as modf returns them. */
  datatype Parts = Parts(whole: nat, frac: real)

  /** modf for non-negative input: the floor and what is left over. */
  function Modf(x: real): (p: Parts)
    requires 0.0 <= x
    ensures p.whole as real <= x < p.whole as real + 1.0
    ensures p.whole as real + p.frac == x
    ensures 0.0 <= p.frac < 1.0
  {
    var w := x.Floor;
    Parts(w, x - w as real)
  }

  /** The node sample reads first for a phase in [0, 1). */
  function SampleIndex(phase: real): (k: nat)
    requires 0.0 <= phase < 1.0
    ensures k < N
    ensures k as real / N as real <= phase < (k as real + 1.0) / N as real
  {
    Modf(phase * N as real).whole
  }

  /** Every node at the same position. */
  predicate Flat(ws: Nodes)
  {
    forall i :: 0 <= i < N ==> ws[i].position == ws[0].position
  }

  /** The interpolated amplitude of the ring at a phase in [0, 1). */
  function Sample(ws: Nodes, phase: real): (a: real)
    requires 0.0 <= phase < 1.0
    ensures Flat(ws) ==> a == ws[0].position
  {
    var p := Modf(phase * N as real);
    assert p.whole < N;
    ws[p.whole].position * (1.0 - p.frac) + ws[Next(p.whole)].position * p.frac
  }

  /** On the segment from node k to node k+1 (mod N), sample is the straight line
      through those two positions: the ring is a piecewise-linear periodic waveform. */
  lemma SampleOnSegment(ws: Nodes, phase: real, k: nat)
    requires k < N
    requires k as real / N as real <= phase < (k as real + 1.0) / N as real
    ensures 0.0 <= phase < 1.0
    ensures Sample(ws, phase)
         == ws[k].position + (phase * N as real - k as real) * (ws[Next(k)].position - ws[k].position)
  {
    var x := phase * N as real;
    assert k as real <= x < k as real + 1.0;
    var p := Modf(x);
    assert p.whole == k;
  }

  /** At the phase of node k, sample returns that node's position exactly. */
  lemma SampleAtNode(ws: Nodes, k: nat)
    requires k < N
    ensures Sample(ws, k as real / N as real) == ws[k].position
  {
    SampleOnSegment(ws, k as real / N as real, k);
  }

  /** The last segment wraps: a phase in [0.95, 1) reads node N-1 and node 0. */
  lemma SampleWrapsAround(ws: Nodes, phase: real)
    requires 0.95 <= phase < 1.0
    ensures SampleIndex(phase) == N - 1 && Next(SampleIndex(phase)) == 0
    ensures Sample(ws, phase)
         == ws[N - 1].position + (phase * N as real - (N - 1) as real) * (ws[0].position - ws[N - 1].position)
  {
    SampleOnSegment(ws, phase, N - 1);
  }

  /** The amplitude is a convex combination of the two nodes read: it never leaves
      the interval between them. */
  lemma SampleIsConvex(ws: Nodes, phase: real)
    requires 0.0 <= phase < 1.0
    ensures Min(ws[SampleIndex(phase)].position, ws[Next(SampleIndex(phase))].position)
         <= Sample(ws, phase)
         <= Max(ws[SampleIndex(phase)].position, ws[Next(SampleIndex(phase))].position)
  {
    var k := SampleIndex(phase);
    var f := Modf(phase * N as real).frac;
    var a, b := ws[k].position, ws[Next(k)].position;
    LerpBetween(a, b, f);
  }

  /** Linear interpolation with a weight in [0, 1] stays between its end points. */
  lemma LerpBetween(a: real, b: real, f: real)
    requires 0.0 <= f <= 1.0
    ensures a <= b ==> a <= a * (1.0 - f) + b * f <= b
    ensures b <= a ==> b <= a * (1.0 - f) + b * f <= a
  {
  }

  /** The positions strike writes: sinTurns(t) stands for sinf(t * 2 * M_PI), so
      node i receives sinf(i / N * 2 * M_PI). */
  function Struck(ws: Nodes, sinTurns: real -> real): (r: Nodes)
    ensures forall i :: 0 <= i < N ==>
      r[i].mass == ws[i].mass && r[i].velocity == ws[i].velocity && r[i].acceleration == ws[i].acceleration
  {
    seq(N, i requires 0 <= i < N => ws[i].(position := sinTurns(i as real / N as real)))
  }

  /** A strike replaces every position with the sine table and keeps everything
      else; the old positions have no influence on the new ones. */
  lemma StruckKeepsMotion(ws: Nodes, other: Nodes, sinTurns: real -> real, i: nat)
    requires i < N
    ensures Struck(ws, sinTurns)[i].position == Struck(other, sinTurns)[i].position
    ensures Struck(ws, sinTurns)[i].position == sinTurns(i as real / N as real)
    ensures Struck(ws, sinTurns)[i].mass == ws[i].mass
    ensures Struck(ws, sinTurns)[i].velocity == ws[i].velocity
    ensures Struck(ws, sinTurns)[i].acceleration == ws[i].acceleration
  {
  }

  /** Striking twice is the same as striking once. */
  lemma StruckIdempotent(ws: Nodes, sinTurns: real -> real)
    ensures Struck(Struck(ws, sinTurns), sinTurns) == Struck(ws, sinTurns)
  {
  }

  /** Opposite nodes of the ring (half a turn apart) sit at negated positions. */
  ghost predicate HalfTurnAntisymmetric(ws: Nodes)
  {
    forall j, m :: 0 <= j < N && m == (j + N / 2) % N ==> ws[m].position == -ws[j].position
  }

  /** A sine with sin(x + pi) == -sin(x) gives a struck ring whose opposite nodes
      are exact negatives of each other. */
  lemma StruckHalfTurn(ws: Nodes, sinTurns: real -> real)
    requires forall t :: sinTurns(t + 0.5) == -sinTurns(t)
    ensures HalfTurnAntisymmetric(Struck(ws, sinTurns))
  {
    var s := Struck(ws, sinTurns);
    forall j, m | 0 <= j < N && m == (j + N / 2) % N
      ensures s[m].position == -s[j].position
    {
      var t := j as real / N as real;
      if j < N / 2 {
        assert m as real / N as real == t + 0.5;
      } else {
        var u := m as real / N as real;
        assert t == u + 0.5;
        assert sinTurns(t) == -sinTurns(u);
      }
    }
  }

  /** Moving the phase on by half a period moves the segment read on by N/2 nodes
      and keeps the offset within the segment. */
  lemma HalfTurnSegment(phase: real)
    requires 0.0 <= phase < 0.5
    ensures SampleIndex(phase) < N / 2
    ensures (SampleIndex(phase) + N / 2) as real / N as real <= phase + 0.5
         < ((SampleIndex(phase) + N / 2) as real + 1.0) / N as real
    ensures (phase + 0.5) * N as real - (SampleIndex(phase) + N / 2) as real
         == phase * N as real - SampleIndex(phase) as real
  {
  }

  lemma OppositeNodes(ws: Nodes, k: nat)
    requires HalfTurnAntisymmetric(ws)
    requires k < N / 2
    ensures ws[k + N / 2].position == -ws[k].position
    ensures ws[Next(k + N / 2)].position == -ws[Next(k)].position
  {
    assert Next(k + N / 2) == (Next(k) + N / 2) % N;
  }

  /** The half-turn step for one phase, given that the two node pairs it reads
      are negated: half a period on, modf gives the same fraction and a whole
      part N/2 larger. */
  lemma SampleHalfTurnAt(ws: Nodes, phase: real)
    requires 0.0 <= phase < 0.5
    requires SampleIndex(phase) < N / 2
    requires ws[SampleIndex(phase) + N / 2].position == -ws[SampleIndex(phase)].position
    requires ws[Next(SampleIndex(phase) + N / 2)].position == -ws[Next(SampleIndex(phase))].position
    ensures Sample(ws, phase + 0.5) == -Sample(ws, phase)
  {
    var p := Modf(phase * N as real);
    var q := Modf((phase + 0.5) * N as real);
    assert q.whole == p.whole + N / 2 && q.frac == p.frac;
    LerpNegates(ws[p.whole].position, ws[Next(p.whole)].position, p.frac,
                ws[q.whole].position, ws[Next(q.whole)].position, q.frac);
  }

  /** On a half-turn-antisymmetric ring the output over the second half of the
      period is the negated output over the first half. */
  lemma SampleHalfTurn(ws: Nodes, phase: real)
    requires HalfTurnAntisymmetric(ws)
    requires 0.0 <= phase < 0.5
    ensures Sample(ws, phase + 0.5) == -Sample(ws, phase)
  {
    HalfTurnSegment(phase);
    OppositeNodes(ws, SampleIndex(phase));
    SampleHalfTurnAt(ws, phase);
  }

  /** After a strike the output is antisymmetric over half a period: sample at
      phase + 1/2 is the negation of sample at phase. */
  lemma SampleOfStruckHalfTurn(ws: Nodes, sinTurns: real -> real, phase: real)
    requires forall t :: sinTurns(t + 0.5) == -sinTurns(t)
    requires 0.0 <= phase < 0.5
    ensures Sample(Struck(ws, sinTurns), phase + 0.5) == -Sample(Struck(ws, sinTurns), phase)
  {
    StruckHalfTurn(ws, sinTurns);
    SampleHalfTurn(Struck(ws, sinTurns), phase);
  }

  /** Interpolating between negated end points with the same weight gives the
      negated value. */
  lemma LerpNegates(x: real, y: real, f: real, x': real, y': real, f': real)
    requires x' == -x && y' == -y && f' == f
    ensures x' * (1.0 - f') + y' * f' == -(x * (1.0 - f) + y * f)
  {
  }
}
