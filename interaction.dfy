/**
 * The particles of MolDyn and the two interaction models of a Newtonian
 * system: the ideal gas, which has no interaction, and the Lennard-Jones
 * pair potential with parameters `ε` and `σ⁶`.
 *
 * Both models compute from the squared distance `d²` of the two particles
 * over the first particle's dimensions.  At `d² = 0` the source divides by
 * zero (an IEEE infinity or NaN); the model returns zero there.
 */
module Interaction {
  import MathFns

  /** `Particle`: dimension, mass, and position, velocity and acceleration vectors. */
  datatype Particle = Particle(dim: nat, mass: real, x: seq<real>, v: seq<real>, a: seq<real>)

  /** All three vectors have the particle's dimension, and that dimension is `d`. */
  predicate Shaped(p: Particle, d: nat)
  {
    p.dim == d && |p.x| == d && |p.v| == d && |p.a| == d
  }

  /** `Particle(dim, mass)`: three zero vectors of length `dim`. */
  function NewParticle(dim: nat, mass: real): (p: Particle)
    ensures Shaped(p, dim) && p.mass == mass
    ensures forall i :: 0 <= i < dim ==> p.x[i] == 0.0 && p.v[i] == 0.0 && p.a[i] == 0.0
  {
    Particle(dim, mass, seq(dim, i => 0.0), seq(dim, i => 0.0), seq(dim, i => 0.0))
  }

  /** `d²` over the first `n` coordinates: the loop `d2 += pow(x1[i] − x2[i], 2)`. */
  function SquaredDistance(x1: seq<real>, x2: seq<real>, n: nat): (d: real)
    requires n <= |x1| && n <= |x2|
    ensures d >= 0.0
  {
    if n == 0 then 0.0
    else
      MathFns.PowerTwoSign(x1[n - 1] - x2[n - 1]);
      SquaredDistance(x1, x2, n - 1) + MathFns.Power(x1[n - 1] - x2[n - 1], 2)
  }

  /** The squared distance is never negative, and it is zero for a particle and itself. */
  lemma {:induction false} SquaredDistanceNonNegative(x1: seq<real>, x2: seq<real>, n: nat)
    requires n <= |x1| && n <= |x2|
    ensures SquaredDistance(x1, x2, n) >= 0.0
    ensures SquaredDistance(x1, x1, n) == 0.0
  {
    if n > 0 {
      SquaredDistanceNonNegative(x1, x2, n - 1);
      MathFns.PowerTwoSign(x1[n - 1] - x2[n - 1]);
      assert MathFns.Power(x1[n - 1] - x1[n - 1], 2) == 0.0;
    }
  }

  /** The squared distance does not depend on the order of the two particles. */
  lemma {:induction false} SquaredDistanceSymmetric(x1: seq<real>, x2: seq<real>, n: nat)
    requires n <= |x1| && n <= |x2|
    ensures SquaredDistance(x1, x2, n) == SquaredDistance(x2, x1, n)
  {
    if n > 0 {
      SquaredDistanceSymmetric(x1, x2, n - 1);
      SquareOfNegation(x1[n - 1] - x2[n - 1], x2[n - 1] - x1[n - 1]);
    }
  }

  lemma SquareOfNegation(s: real, t: real)
    requires t == -s
    ensures MathFns.Power(s, 2) == MathFns.Power(t, 2)
  {
    MathFns.PowerTwo(s);
    MathFns.PowerTwo(t);
    assert t * t == s * s;
  }

  /** The template argument of `NewtonSys`: `Ideal_Gas` or `Lennard_Jones` with `ε` and `σ⁶`. */
  datatype Model = IdealGas | LennardJones(epsilon: real, sigma6: real)

  /** `Lennard_Jones()`: `ε = 10⁻⁵` and `σ⁶ = (10⁻⁵)⁶`. */
  function DefaultLennardJones(): (m: Model)
    ensures m.LennardJones? && m.epsilon == 0.00001 && m.sigma6 == MathFns.Power(0.00001, 6)
  {
    LennardJones(0.00001, MathFns.Power(0.00001, 6))
  }

  /** `Lennard_Jones(ε, σ)`: stores `ε` and `σ⁶`. */
  function MakeLennardJones(epsilon: real, sigma: real): (m: Model)
    ensures m.LennardJones? && m.epsilon == epsilon && m.sigma6 == MathFns.Power(sigma, 6)
  {
    LennardJones(epsilon, MathFns.Power(sigma, 6))
  }

  /** `set_epsilon(ε)`: replaces `ε` only. */
  function SetEpsilon(m: Model, epsilon: real): (r: Model)
    requires m.LennardJones?
    ensures r.LennardJones? && r.epsilon == epsilon && r.sigma6 == m.sigma6
  {
    m.(epsilon := epsilon)
  }

  /** `set_sigma(σ)`: replaces `σ⁶` only. */
  function SetSigma(m: Model, sigma: real): (r: Model)
    requires m.LennardJones?
    ensures r.LennardJones? && r.epsilon == m.epsilon && r.sigma6 == MathFns.Power(sigma, 6)
  {
    m.(sigma6 := MathFns.Power(sigma, 6))
  }

  lemma {:induction false} PowerNonZero(x: real, n: nat)
    requires x != 0.0
    ensures MathFns.Power(x, n) != 0.0
  {
    if n > 0 {
      PowerNonZero(x, n - 1);
      ProductNonZero(x, MathFns.Power(x, n - 1));
    }
  }

  lemma ProductNonZero(a: real, b: real)
    requires a != 0.0 && b != 0.0
    ensures a * b != 0.0
  {
  }

  /** `4ε·(σ⁶²/d²⁶ − σ⁶/d²³)`, which crosses zero at the distance `σ`, where `d²³ = σ⁶`. */
  function LennardJonesPotential(epsilon: real, sigma6: real, d2: real): (e: real)
    ensures d2 != 0.0 && MathFns.Power(d2, 3) == sigma6 ==> e == 0.0
  {
    if d2 == 0.0 then 0.0
    else
      PowerNonZero(d2, 6);
      PowerNonZero(d2, 3);
      CrossingBracket(sigma6, d2);
      4.0 * epsilon * (MathFns.Power(sigma6, 2) / MathFns.Power(d2, 6) - sigma6 / MathFns.Power(d2, 3))
  }

  /**
   * The multiplier `k = (48ε/d²)·(σ⁶²/d²⁶ − 0.5·σ⁶/d²³)` of the separation
   * vector: for `ε > 0` the pair repels closer than the minimum `d²³ = 2σ⁶`
   * and attracts beyond it.
   */
  function LennardJonesFactor(epsilon: real, sigma6: real, d2: real): (k: real)
    ensures epsilon > 0.0 && d2 > 0.0 && MathFns.Power(d2, 3) < 2.0 * sigma6 ==> k > 0.0
    ensures epsilon > 0.0 && d2 > 0.0 && sigma6 > 0.0 && MathFns.Power(d2, 3) > 2.0 * sigma6 ==> k < 0.0
  {
    if d2 == 0.0 then 0.0
    else
      PowerNonZero(d2, 6);
      PowerNonZero(d2, 3);
      FactorSign(epsilon, sigma6, d2);
      (48.0 * epsilon / d2) * (MathFns.Power(sigma6, 2) / MathFns.Power(d2, 6) - 0.5 * sigma6 / MathFns.Power(d2, 3))
  }

  /** With `c = d²³ = σ⁶`, both ratios of the potential are 1. */
  lemma CrossingBracket(sigma6: real, d2: real)
    requires d2 != 0.0
    ensures MathFns.Power(d2, 3) != 0.0 && MathFns.Power(d2, 6) != 0.0
    ensures MathFns.Power(d2, 3) == sigma6 ==>
      MathFns.Power(sigma6, 2) / MathFns.Power(d2, 6) == 1.0 && sigma6 / MathFns.Power(d2, 3) == 1.0
  {
    PowerNonZero(d2, 3);
    PowerSixIsCubeSquared(d2);
    PowerNonZero(d2, 6);
    MathFns.PowerTwo(sigma6);
    if MathFns.Power(d2, 3) == sigma6 {
      DivideBack(sigma6 * sigma6, MathFns.Power(d2, 6), 1.0);
      DivideBack(sigma6, MathFns.Power(d2, 3), 1.0);
    }
  }

  /** The sign of the force multiplier on either side of the minimum. */
  lemma FactorSign(epsilon: real, sigma6: real, d2: real)
    requires d2 != 0.0
    ensures MathFns.Power(d2, 3) != 0.0 && MathFns.Power(d2, 6) != 0.0
    ensures var k := (48.0 * epsilon / d2) * (MathFns.Power(sigma6, 2) / MathFns.Power(d2, 6) - 0.5 * sigma6 / MathFns.Power(d2, 3));
      && (epsilon > 0.0 && d2 > 0.0 && MathFns.Power(d2, 3) < 2.0 * sigma6 ==> k > 0.0)
      && (epsilon > 0.0 && d2 > 0.0 && sigma6 > 0.0 && MathFns.Power(d2, 3) > 2.0 * sigma6 ==> k < 0.0)
  {
    PowerNonZero(d2, 3);
    PowerSixIsCubeSquared(d2);
    PowerNonZero(d2, 6);
    MathFns.PowerTwo(sigma6);
    var c := MathFns.Power(d2, 3);
    var q := sigma6 / c;
    BracketFactored(sigma6, c, MathFns.Power(d2, 6));
    if epsilon > 0.0 && d2 > 0.0 {
      PowerPositive(d2, 3);
      var a := 48.0 * epsilon / d2;
      assert a > 0.0;
      if c < 2.0 * sigma6 {
        RatioAbove(sigma6, c);
        assert q * (q - 0.5) > 0.0;
        assert a * (q * (q - 0.5)) > 0.0;
      }
      if sigma6 > 0.0 && c > 2.0 * sigma6 {
        RatioBelow(sigma6, c);
        assert q * (q - 0.5) < 0.0;
        assert a * (q * (q - 0.5)) < 0.0;
      }
    }
  }

  /** `s²/c² − s/(2c) = q·(q − ½)` with `q = s/c`. */
  lemma BracketFactored(s: real, c: real, b: real)
    requires c != 0.0 && b != 0.0 && b == c * c
    ensures s * s / b - 0.5 * s / c == (s / c) * (s / c - 0.5)
  {
    var q := s / c;
    assert s == q * c;
    assert s * s == (q * c) * (q * c);
    assert (q * c) * (q * c) == (q * q) * (c * c);
    DivideBack(s * s, b, q * q);
  }

  lemma RatioAbove(s: real, c: real)
    requires 0.0 < c < 2.0 * s
    ensures s / c > 0.5
  {
    assert s / c * c == s;
  }

  lemma RatioBelow(s: real, c: real)
    requires 0.0 < s && 2.0 * s < c
    ensures 0.0 < s / c < 0.5
  {
    var q := s / c;
    assert q * c == s;
    assert (0.5 - q) * c == 0.5 * c - s;
    PositiveFactor(0.5 - q, c);
  }

  lemma PositiveFactor(a: real, c: real)
    requires c > 0.0 && a * c > 0.0
    ensures a > 0.0
  {
  }

  lemma {:induction false} PowerPositive(x: real, n: nat)
    requires x > 0.0
    ensures MathFns.Power(x, n) > 0.0
  {
    if n > 0 {
      PowerPositive(x, n - 1);
      assert x * MathFns.Power(x, n - 1) > 0.0;
    }
  }

  /** `k·s`, one force component. */
  function Scale(k: real, s: real): (r: real)
  {
    k * s
  }

  /** The multiplier of the separation: zero for the ideal gas. */
  function Factor(m: Model, d2: real): (k: real)
  {
    match m
    case IdealGas => 0.0
    case LennardJones(epsilon, sigma6) => LennardJonesFactor(epsilon, sigma6, d2)
  }

  /** Both particles' positions cover the first particle's dimensions. */
  predicate Comparable(p1: Particle, p2: Particle)
  {
    p1.dim <= |p1.x| && p1.dim <= |p2.x|
  }

  /**
   * `model.potential(part1, part2)`: zero for the ideal gas, and zero for
   * coincident particles, where the source divides by zero.
   */
  function PotentialEnergy(m: Model, p1: Particle, p2: Particle): (e: real)
    requires Comparable(p1, p2)
    ensures m.IdealGas? ==> e == 0.0
    ensures SquaredDistance(p1.x, p2.x, p1.dim) == 0.0 ==> e == 0.0
  {
    match m
    case IdealGas => 0.0
    case LennardJones(epsilon, sigma6) =>
      LennardJonesPotential(epsilon, sigma6, SquaredDistance(p1.x, p2.x, p1.dim))
  }

  /** `model.force(part1, part2)`: the force on the first particle due to the second, one component per dimension. */
  function Force(m: Model, p1: Particle, p2: Particle): (f: seq<real>)
    requires Comparable(p1, p2)
    ensures |f| == p1.dim
    ensures m.IdealGas? ==> forall i :: 0 <= i < p1.dim ==> f[i] == 0.0
    ensures forall i :: 0 <= i < p1.dim && p1.x[i] == p2.x[i] ==> f[i] == 0.0
  {
    match m
    case IdealGas => seq(p1.dim, i => 0.0)
    case LennardJones(epsilon, sigma6) =>
      var k := LennardJonesFactor(epsilon, sigma6, SquaredDistance(p1.x, p2.x, p1.dim));
      seq(p1.dim, i requires 0 <= i < p1.dim => Scale(k, p1.x[i] - p2.x[i]))
  }

  /** The ideal gas has neither potential energy nor force. */
  lemma IdealGasInert(p1: Particle, p2: Particle)
    requires Comparable(p1, p2)
    ensures PotentialEnergy(IdealGas, p1, p2) == 0.0
    ensures forall i :: 0 <= i < p1.dim ==> Force(IdealGas, p1, p2)[i] == 0.0
  {
  }

  /** Every force is a multiple of the separation `x1 − x2`, by a factor that depends on `d²` only. */
  lemma ForceAlongSeparation(m: Model, p1: Particle, p2: Particle)
    requires Comparable(p1, p2)
    ensures forall i :: 0 <= i < p1.dim ==>
      Force(m, p1, p2)[i] == Scale(Factor(m, SquaredDistance(p1.x, p2.x, p1.dim)), p1.x[i] - p2.x[i])
  {
  }

  /** Newton's third law: the force of `p2` on `p1` is minus the force of `p1` on `p2`. */
  lemma ForceAntisymmetric(m: Model, p1: Particle, p2: Particle)
    requires Comparable(p1, p2) && p2.dim == p1.dim
    ensures forall i :: 0 <= i < p1.dim ==> Force(m, p1, p2)[i] == -Force(m, p2, p1)[i]
  {
    SquaredDistanceSymmetric(p1.x, p2.x, p1.dim);
    var k := Factor(m, SquaredDistance(p1.x, p2.x, p1.dim));
    ForceAlongSeparation(m, p1, p2);
    ForceAlongSeparation(m, p2, p1);
    forall i | 0 <= i < p1.dim
      ensures Force(m, p1, p2)[i] == -Force(m, p2, p1)[i]
    {
      ScaleNegation(k, p1.x[i] - p2.x[i], p2.x[i] - p1.x[i]);
    }
  }

  lemma ScaleNegation(k: real, s: real, t: real)
    requires t == -s
    ensures Scale(k, s) == -Scale(k, t)
  {
  }

  /** The potential energy of a pair does not depend on the order of the two particles. */
  lemma PotentialSymmetric(m: Model, p1: Particle, p2: Particle)
    requires Comparable(p1, p2) && p2.dim == p1.dim
    ensures PotentialEnergy(m, p1, p2) == PotentialEnergy(m, p2, p1)
  {
    SquaredDistanceSymmetric(p1.x, p2.x, p1.dim);
  }

  /** At `d²³ = 2σ⁶` the bracket of the Lennard-Jones force vanishes, so every component of the force is zero. */
  lemma ForceVanishesAtMinimum(epsilon: real, sigma6: real, p1: Particle, p2: Particle)
    requires Comparable(p1, p2)
    requires SquaredDistance(p1.x, p2.x, p1.dim) != 0.0
    requires MathFns.Power(SquaredDistance(p1.x, p2.x, p1.dim), 3) == 2.0 * sigma6
    ensures forall i :: 0 <= i < p1.dim ==> Force(LennardJones(epsilon, sigma6), p1, p2)[i] == 0.0
  {
    var d2 := SquaredDistance(p1.x, p2.x, p1.dim);
    MinimumBracket(sigma6, d2);
    assert LennardJonesFactor(epsilon, sigma6, d2) == 0.0;
  }

  /** At the same distance the potential is `−ε`, the depth of the well. */
  lemma PotentialWellDepth(epsilon: real, sigma6: real, d2: real)
    requires d2 != 0.0 && MathFns.Power(d2, 3) == 2.0 * sigma6
    ensures LennardJonesPotential(epsilon, sigma6, d2) == -epsilon
  {
    MinimumBracket(sigma6, d2);
  }

  /** With `c = d²³ = 2σ⁶`: `σ⁶²/d²⁶ = 1/4` and `σ⁶/d²³ = 1/2`. */
  lemma MinimumBracket(sigma6: real, d2: real)
    requires d2 != 0.0 && MathFns.Power(d2, 3) == 2.0 * sigma6
    ensures MathFns.Power(d2, 3) != 0.0 && MathFns.Power(d2, 6) != 0.0
    ensures MathFns.Power(sigma6, 2) / MathFns.Power(d2, 6) == 0.25
    ensures sigma6 / MathFns.Power(d2, 3) == 0.5
  {
    var c := MathFns.Power(d2, 3);
    PowerNonZero(d2, 3);
    PowerSixIsCubeSquared(d2);
    PowerNonZero(d2, 6);
    MathFns.PowerTwo(sigma6);
    QuarterRatio(sigma6, c, MathFns.Power(d2, 6));
  }

  lemma PowerSixIsCubeSquared(x: real)
    ensures MathFns.Power(x, 6) == MathFns.Power(x, 3) * MathFns.Power(x, 3)
  {
    PowerAdd(x, 3, 3);
  }

  lemma {:induction false} PowerAdd(x: real, m: nat, n: nat)
    ensures MathFns.Power(x, m + n) == MathFns.Power(x, m) * MathFns.Power(x, n)
  {
    if m > 0 {
      PowerAdd(x, m - 1, n);
      var a, b := MathFns.Power(x, m - 1), MathFns.Power(x, n);
      assert MathFns.Power(x, m + n) == x * (a * b);
      assert x * (a * b) == (x * a) * b;
    }
  }

  lemma QuarterRatio(s: real, c: real, b: real)
    requires c == 2.0 * s && c != 0.0 && b == c * c && b != 0.0
    ensures s * s / b == 0.25 && s / c == 0.5
  {
    assert b == 4.0 * (s * s);
    DivideBack(s * s, b, 0.25);
    DivideBack(s, c, 0.5);
  }

  lemma DivideBack(a: real, b: real, r: real)
    requires b != 0.0 && a == r * b
    ensures a / b == r
  {
  }
}
