/**
 * `QuantumSys` of MetComp: a potential `pot` and a wave function `psi`,
 * both sampled lines, and the explicit Euler step of the one-dimensional
 * Schrödinger equation, which overwrites the interior samples of `psi` in
 * ascending order.
 */
module Quantum {
  import opened ComplexNumbers
  import opened SampledLine
  import MathFns

  /** `κ = dt / (2·dx²)`, positive for a positive time step. */
  function Kappa(dt: real, dx: real): (kappa: real)
    requires dx != 0.0
    ensures kappa * (dx * dx) == dt / 2.0
    ensures dt > 0.0 ==> kappa > 0.0
  {
    MathFns.NonZeroSquare(dx);
    dt / 2.0 / (dx * dx)
  }

  /**
   * The new value of one interior sample:
   * `(1 − i·(2κ + dt·V))·centre + i·κ·(left + right)`; a zero neighbourhood
   * stays zero.
   */
  function EulerPoint(left: Complex, centre: Complex, right: Complex, v: real, dt: real, kappa: real): (z: Complex)
    ensures Wf(z)
    ensures left == Zero() && centre == Zero() && right == Zero() ==> z == Zero()
  {
    Add(Mul(Make(1.0, -2.0 * kappa - dt * v), centre), Mul(Make(0.0, kappa), Add(left, right)))
  }

  /** `EulerPoint` written out, for the loop of `Euler`, which builds the same sum in two steps. */
  lemma EulerPointUnfold(left: Complex, centre: Complex, right: Complex, v: real, dt: real, kappa: real)
    ensures EulerPoint(left, centre, right, v, dt, kappa)
         == Add(Mul(Make(1.0, -2.0 * kappa - dt * v), centre), Mul(Make(0.0, kappa), Add(left, right)))
  {
  }

  /** The Euler point in real and imaginary parts: the discretised `i·∂ψ/∂t = −∂²ψ/∂x² + V·ψ`. */
  lemma EulerPointParts(left: Complex, centre: Complex, right: Complex, v: real, dt: real, kappa: real)
    ensures var z := EulerPoint(left, centre, right, v, dt, kappa);
      && z.re == centre.re + (2.0 * kappa + dt * v) * centre.im - kappa * (left.im + right.im)
      && z.im == centre.im - (2.0 * kappa + dt * v) * centre.re + kappa * (left.re + right.re)
  {
  }

  /**
   * The sweep from sample `i` on: each interior sample is replaced in turn,
   * its left neighbour already replaced, its right neighbour not yet.
   */
  function EulerSweep(p: seq<Point<Complex>>, v: seq<real>, dt: real, kappa: real, i: nat): (r: seq<Point<Complex>>)
    requires 1 <= i <= |p| - 1 && |v| == |p|
    ensures |r| == |p|
    ensures forall j :: 0 <= j < |p| ==> r[j].x == p[j].x
    ensures r[0] == p[0] && r[|p| - 1] == p[|p| - 1]
    decreases |p| - i
  {
    if i == |p| - 1 then p
    else EulerSweep(p[i := Point(p[i].x, EulerPoint(p[i - 1].y, p[i].y, p[i + 1].y, v[i], dt, kappa))], v, dt, kappa, i + 1)
  }

  /**
   * The sweep keeps the number of samples, every abscissa and both end
   * samples, and each interior sample `j` from `i` on is the Euler point of
   * its new left neighbour and its old centre and right neighbour.
   */
  lemma {:induction false} EulerSweepCells(p: seq<Point<Complex>>, v: seq<real>, dt: real, kappa: real, i: nat)
    requires 1 <= i <= |p| - 1 && |v| == |p|
    ensures var r := EulerSweep(p, v, dt, kappa, i);
      && |r| == |p|
      && (forall j :: 0 <= j < |p| ==> r[j].x == p[j].x)
      && (forall j :: 0 <= j < i ==> r[j] == p[j])
      && r[|p| - 1] == p[|p| - 1]
      && (forall j :: i <= j < |p| - 1 ==> r[j].y == EulerPoint(r[j - 1].y, p[j].y, p[j + 1].y, v[j], dt, kappa))
    decreases |p| - i
  {
    if i < |p| - 1 {
      var q := p[i := Point(p[i].x, EulerPoint(p[i - 1].y, p[i].y, p[i + 1].y, v[i], dt, kappa))];
      EulerSweepCells(q, v, dt, kappa, i + 1);
    }
  }

  /** A wave function that vanishes everywhere stays zero under the step. */
  lemma {:induction false} ZeroStaysZero(p: seq<Point<Complex>>, v: seq<real>, dt: real, kappa: real)
    requires |p| >= 2 && |v| == |p|
    requires forall j :: 0 <= j < |p| ==> p[j].y == Zero()
    ensures forall j :: 0 <= j < |p| ==> EulerSweep(p, v, dt, kappa, 1)[j].y == Zero()
  {
    EulerSweepCells(p, v, dt, kappa, 1);
    var r := EulerSweep(p, v, dt, kappa, 1);
    forall j | 0 <= j < |p|
      ensures r[j].y == Zero()
    {
      if 1 <= j < |p| - 1 {
        ZeroInductive(r, p, v, dt, kappa, j);
      }
    }
  }

  lemma {:induction false} ZeroInductive(r: seq<Point<Complex>>, p: seq<Point<Complex>>, v: seq<real>, dt: real, kappa: real, j: nat)
    requires |r| == |p| == |v| >= 2 && 1 <= j < |p| - 1
    requires forall k :: 0 <= k < |p| ==> p[k].y == Zero()
    requires r[0] == p[0]
    requires forall k :: 1 <= k < |p| - 1 ==> r[k].y == EulerPoint(r[k - 1].y, p[k].y, p[k + 1].y, v[k], dt, kappa)
    ensures r[j].y == Zero()
    decreases j
  {
    if j > 1 {
      ZeroInductive(r, p, v, dt, kappa, j - 1);
    }
  }

  /** The potential the step reads at each of `n` indices: `pot[i]`, which falls back to the cursor sample. */
  function PotentialAt(pot: Line<real>, n: nat): (v: seq<real>)
    reads pot
    requires pot.Valid()
    ensures |v| == n
    ensures forall i :: 0 <= i < n ==> v[i] == pot.YAt(i)
  {
    seq(n, i requires 0 <= i < n && pot.Valid() reads pot => pot.YAt(i))
  }

  class QuantumSys {
    var pot: Line<real>
    var psi: Line<Complex>

    ghost predicate Valid()
      reads this, pot, psi
    {
      pot.Valid() && psi.Valid()
    }

    /** `QuantumSys(pot, psi0)`: the system holds its own copies of both lines. */
    constructor (pot0: Line<real>, psi0: Line<Complex>)
      ensures fresh(pot) && fresh(psi)
      ensures pot0.Valid() && psi0.Valid() ==> Valid()
      ensures pot.functions == pot0.functions && pot.sPoints == pot0.sPoints && pot.step == pot0.step
      ensures pot.elements == pot0.elements && pot.ptr == pot0.ptr
      ensures psi.functions == psi0.functions && psi.sPoints == psi0.sPoints && psi.step == psi0.step
      ensures psi.elements == psi0.elements && psi.ptr == psi0.ptr
    {
      pot := new Line.Copy(pot0);
      psi := new Line.Copy(psi0);
    }

    /**
     * `Euler(dt)`: with `κ = dt / (2·dx²)` for the step `dx` of `psi`, the
     * samples `1 .. n−2` of `psi` are replaced in ascending order by their
     * Euler points; the grid, the end samples and the cursor are kept.
     */
    method Euler(dt: real)
      requires Valid()
      modifies psi
      ensures Valid()
      ensures psi.step == old(psi.step) && psi.step != 0.0
      ensures psi.elements == EulerSweep(old(psi.elements), PotentialAt(pot, |old(psi.elements)|), dt, Kappa(dt, psi.step), 1)
      ensures psi.sPoints == old(psi.sPoints) && psi.functions == old(psi.functions) && psi.ptr == old(psi.ptr)
    {
      var n := psi.NPoints();
      var dx := psi.Step();
      var kappa := Kappa(dt, dx);
      ghost var v := PotentialAt(pot, n);
      var i := 1;
      while i < n - 1
        invariant 1 <= i <= n - 1 && n == |psi.elements|
        invariant psi.Valid() && pot.Valid() && v == PotentialAt(pot, n)
        invariant psi.step == dx && psi.sPoints == old(psi.sPoints) && psi.functions == old(psi.functions) && psi.ptr == old(psi.ptr)
        invariant EulerSweep(psi.elements, v, dt, kappa, i) == EulerSweep(old(psi.elements), v, dt, kappa, 1)
      {
        var vi := pot.YAt(i);
        var left, centre, right := psi.YAt(i - 1), psi.YAt(i), psi.YAt(i + 1);
        var temp := Mul(Make(1.0, -2.0 * kappa - dt * vi), centre);
        temp := Add(temp, Mul(Make(0.0, kappa), Add(left, right)));
        EulerPointUnfold(left, centre, right, vi, dt, kappa);
        psi.SetY(i, temp);
        i := i + 1;
      }
    }
  }
}
