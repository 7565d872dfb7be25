/**
 * `NewtonSys<Model>`: a box of identical particles that interact in pairs
 * through the model and move by the velocity-Verlet method.
 *
 * The random initial state of the source is an input of the constructor:
 * the side lengths of the box, the positions and the velocities.
 */
module Newton {
  import opened Interaction
  import opened Boundary
  import opened PairSums
  import MathFns

  /** `N_A`, Avogadro's number. */
  const AvogadroNumber: real := 602214085774000000000000.0

  /** The mass of one particle, `M_at / (N_A · 12)`. */
  function ParticleMass(mAt: real): (m: real)
    ensures mAt != 0.0 ==> m != 0.0
    ensures mAt > 0.0 ==> m > 0.0
  {
    mAt / (AvogadroNumber * 12.0)
  }

  /** All particles have the dimension `d`. */
  predicate Uniform(ps: seq<Particle>, d: nat)
  {
    forall r :: 0 <= r < |ps| ==> Shaped(ps[r], d)
  }

  /** The particles the constructor starts from: the given positions and velocities, zero accelerations. */
  function Start(d: nat, mass: real, positions: seq<seq<real>>, velocities: seq<seq<real>>): (ps: seq<Particle>)
    requires |positions| == |velocities|
    requires forall j :: 0 <= j < |positions| ==> |positions[j]| == d && |velocities[j]| == d
    ensures |ps| == |positions| && Uniform(ps, d)
  {
    seq(|positions|, j requires 0 <= j < |positions| => Particle(d, mass, positions[j], velocities[j], seq(d, i => 0.0)))
  }

  // Velocity Verlet

  /** The position update `x + v·dt + a·dt²/2`: uniform motion without acceleration, no move over a zero step. */
  function Drift(x: real, v: real, a: real, dt: real): (y: real)
    ensures a == 0.0 ==> y == x + v * dt
    ensures dt == 0.0 ==> y == x
  {
    x + (v * dt + 0.5 * a * dt * dt)
  }

  /** The velocity update `v + (a + a_next)·dt/2`: the velocity is kept when the two accelerations cancel. */
  function Kick(v: real, a: real, aNext: real, dt: real): (w: real)
    ensures a + aNext == 0.0 ==> w == v
    ensures dt == 0.0 ==> w == v
  {
    v + 0.5 * (a + aNext) * dt
  }

  /** Coordinate and velocity component `i` of `p` after the drift and the boundary rule. */
  function Moved(p: Particle, b: Bound, size: seq<real>, dt: real, i: nat): (real, real)
    requires Shaped(p, |size|) && i < |size|
  {
    Apply(b, Drift(p.x[i], p.v[i], p.a[i], dt), p.v[i], size[i])
  }

  /** `p` after the position loop of `vverlet`. */
  function DriftParticle(p: Particle, b: Bound, size: seq<real>, dt: real): (q: Particle)
    requires Shaped(p, |size|)
    ensures Shaped(q, |size|) && q.mass == p.mass && q.a == p.a
    ensures forall i :: 0 <= i < |size| ==> q.x[i] == Moved(p, b, size, dt, i).0 && q.v[i] == Moved(p, b, size, dt, i).1
  {
    p.(x := seq(|size|, i requires 0 <= i < |size| => Moved(p, b, size, dt, i).0),
       v := seq(|size|, i requires 0 <= i < |size| => Moved(p, b, size, dt, i).1))
  }

  /** All particles after the position loop of `vverlet`. */
  function DriftAll(ps: seq<Particle>, b: Bound, size: seq<real>, dt: real): (qs: seq<Particle>)
    requires Uniform(ps, |size|)
    ensures |qs| == |ps| && Uniform(qs, |size|)
    ensures forall r :: 0 <= r < |ps| ==> qs[r] == DriftParticle(ps[r], b, size, dt)
  {
    seq(|ps|, r requires 0 <= r < |ps| => DriftParticle(ps[r], b, size, dt))
  }

  /** `p` after its velocity half-step and acceleration update, with the pair loop run on `s`. */
  predicate Kicked(s: Pairs, r: nat, p: Particle, dt: real)
    requires WellFormed(s) && r < |s.ps|
  {
    && Shaped(p, s.dim) && p.mass == s.ps[r].mass && p.x == s.ps[r].x
    && forall i :: 0 <= i < s.dim ==>
         && p.v[i] == Kick(s.ps[r].v[i], s.ps[r].a[i], Accel(s, r, i), dt)
         && p.a[i] == Accel(s, r, i)
  }

  /** Component `i` of the accelerations of all particles. */
  function AxisAccelerations(ps: seq<Particle>, i: nat): (c: seq<real>)
    requires forall r :: 0 <= r < |ps| ==> i < |ps[r].a|
    ensures |c| == |ps| && forall r :: 0 <= r < |ps| ==> c[r] == ps[r].a[i]
  {
    seq(|ps|, r requires 0 <= r < |ps| => ps[r].a[i])
  }

  /** Component `i` of the velocities of all particles. */
  function AxisVelocities(ps: seq<Particle>, i: nat): (c: seq<real>)
    requires forall r :: 0 <= r < |ps| ==> i < |ps[r].v|
    ensures |c| == |ps| && forall r :: 0 <= r < |ps| ==> c[r] == ps[r].v[i]
  {
    seq(|ps|, r requires 0 <= r < |ps| => ps[r].v[i])
  }

  // Energies

  /** `Σ_{i<n} v[i]²`. */
  function SquaredSpeed(v: seq<real>, n: nat): (r: real)
    requires n <= |v|
  {
    if n == 0 then 0.0 else SquaredSpeed(v, n - 1) + MathFns.Power(v[n - 1], 2)
  }

  /** `Σ_{j<n} Σ_{i<d} v_j[i]²`, in the order of the loops of `kinetic`. */
  function SpeedSum(ps: seq<Particle>, d: nat, n: nat): (r: real)
    requires n <= |ps| && Uniform(ps, d)
  {
    if n == 0 then 0.0 else SpeedSum(ps, d, n - 1) + SquaredSpeed(ps[n - 1].v, d)
  }

  /** `0.5 · mass · Σ v²`, never negative for a positive mass. */
  function KineticEnergy(ps: seq<Particle>, d: nat, mass: real): (e: real)
    requires Uniform(ps, d)
    ensures mass > 0.0 ==> e >= 0.0
  {
    SpeedSumNonNegative(ps, d, |ps|);
    assert mass > 0.0 ==> 0.5 * mass * SpeedSum(ps, d, |ps|) >= 0.0;
    0.5 * mass * SpeedSum(ps, d, |ps|)
  }

  /** `Σ_{j<k<hi} 2·potential(p_j, p_k)` for a fixed `j`. */
  function RowPotential(m: Model, ps: seq<Particle>, d: nat, j: nat, hi: nat): (e: real)
    requires Uniform(ps, d) && j < hi <= |ps|
    ensures m == IdealGas ==> e == 0.0
    decreases hi
  {
    if hi == j + 1 then 0.0
    else RowPotential(m, ps, d, j, hi - 1) + 2.0 * PotentialEnergy(m, ps[j], ps[hi - 1])
  }

  /**
   * `Σ_{j<n} Σ_{j<k} 2·potential(p_j, p_k)`, in the order of the loops of
   * `potential`; an ideal gas has no potential energy.
   */
  function PairPotential(m: Model, ps: seq<Particle>, d: nat, n: nat): (e: real)
    requires Uniform(ps, d) && n <= |ps|
    ensures m == IdealGas ==> e == 0.0
  {
    if n == 0 then 0.0 else PairPotential(m, ps, d, n - 1) + RowPotential(m, ps, d, n - 1, |ps|)
  }

  /** Each squared component is non-negative, and so is their sum. */
  lemma {:induction false} SquaredSpeedNonNegative(v: seq<real>, n: nat)
    requires n <= |v|
    ensures SquaredSpeed(v, n) >= 0.0
    ensures SquaredSpeed(v, n) == 0.0 <==> forall i :: 0 <= i < n ==> v[i] == 0.0
  {
    if n > 0 {
      SquaredSpeedNonNegative(v, n - 1);
      MathFns.PowerTwoSign(v[n - 1]);
      MathFns.PowerTwo(v[n - 1]);
    }
  }

  lemma {:induction false} SpeedSumNonNegative(ps: seq<Particle>, d: nat, n: nat)
    requires n <= |ps| && Uniform(ps, d)
    ensures SpeedSum(ps, d, n) >= 0.0
    ensures SpeedSum(ps, d, n) == 0.0 <==> forall j, i :: 0 <= j < n && 0 <= i < d ==> ps[j].v[i] == 0.0
  {
    if n > 0 {
      SpeedSumNonNegative(ps, d, n - 1);
      SquaredSpeedNonNegative(ps[n - 1].v, d);
    }
  }

  /**
   * The kinetic energy of particles of positive mass is non-negative, and
   * it is zero exactly when every particle is at rest.
   */
  lemma KineticNonNegative(ps: seq<Particle>, d: nat, mass: real)
    requires Uniform(ps, d) && mass > 0.0
    ensures KineticEnergy(ps, d, mass) >= 0.0
    ensures KineticEnergy(ps, d, mass) == 0.0 <==> forall j, i :: 0 <= j < |ps| && 0 <= i < d ==> ps[j].v[i] == 0.0
  {
    SpeedSumNonNegative(ps, d, |ps|);
    var e := SpeedSum(ps, d, |ps|);
    assert 0.5 * mass > 0.0;
    assert e > 0.0 ==> 0.5 * mass * e > 0.0;
  }

  /** For two particles the sum counts their pair potential twice. */
  lemma PairPotentialOfTwo(m: Model, ps: seq<Particle>, d: nat)
    requires Uniform(ps, d) && |ps| == 2
    ensures PairPotential(m, ps, d, 2) == 2.0 * PotentialEnergy(m, ps[0], ps[1])
    ensures PairPotential(m, ps, d, 2) == PotentialEnergy(m, ps[0], ps[1]) + PotentialEnergy(m, ps[1], ps[0])
  {
    assert PairPotential(m, ps, d, 1) == RowPotential(m, ps, d, 0, 2);
    assert RowPotential(m, ps, d, 1, 2) == 0.0;
    assert RowPotential(m, ps, d, 0, 2) == 2.0 * PotentialEnergy(m, ps[0], ps[1]);
    PotentialSymmetric(m, ps[0], ps[1]);
  }

  /**
   * For an ideal gas, a particle that does not reach a wall moves in a
   * straight line: it starts without acceleration, keeps its velocity, and
   * moves by `v·dt`.
   */
  lemma IdealGasStraightLine(s: Pairs, r: nat, p: Particle, b: Bound, size: seq<real>, dt: real)
    requires WellFormed(s) && s.model == IdealGas && r < |s.ps| && s.dim == |size|
    requires Shaped(p, |size|) && forall i :: 0 <= i < |size| ==> p.a[i] == 0.0
    requires s.ps[r] == DriftParticle(p, b, size, dt)
    requires forall i :: 0 <= i < |size| ==> 0.0 <= p.x[i] + p.v[i] * dt <= size[i]
    ensures forall q :: Kicked(s, r, q, dt) ==>
      forall i :: 0 <= i < |size| ==> q.x[i] == p.x[i] + p.v[i] * dt && q.v[i] == p.v[i] && q.a[i] == 0.0
  {
    forall i | 0 <= i < |size|
      ensures s.ps[r].x[i] == p.x[i] + p.v[i] * dt && s.ps[r].v[i] == p.v[i] && Accel(s, r, i) == 0.0
    {
    }
  }

  /** The force of a model on two particles depends on the first one's dimension and on both positions only. */
  lemma ForceOfPositions(m: Model, p1: Particle, p2: Particle, q1: Particle, q2: Particle)
    requires Comparable(p1, p2) && p1.dim == q1.dim && p1.x == q1.x && p2.x == q2.x
    ensures Comparable(q1, q2) && Force(m, p1, p2) == Force(m, q1, q2)
  {
  }

  /** `x·dt/2`. */
  function HalfStep(x: real, dt: real): (r: real)
  {
    0.5 * x * dt
  }

  lemma HalfStepAdds(x: real, y: real, dt: real)
    ensures HalfStep(x, dt) + HalfStep(y, dt) == HalfStep(x + y, dt)
  {
  }

  lemma HalfStepOfZero(x: real, dt: real)
    requires x == 0.0
    ensures HalfStep(x, dt) == 0.0
  {
  }

  /** Summed over the particles, the kicks add half a step of the old and the new accelerations. */
  lemma {:induction false} KickSum(v: seq<real>, a: seq<real>, aNext: seq<real>, dt: real, w: seq<real>)
    requires |v| == |a| == |aNext| == |w|
    requires forall r :: 0 <= r < |w| ==> w[r] == Kick(v[r], a[r], aNext[r], dt)
    ensures MathFns.Sum(w) == MathFns.Sum(v) + HalfStep(MathFns.Sum(a) + MathFns.Sum(aNext), dt)
  {
    if w == [] {
      assert HalfStep(0.0, dt) == 0.0;
    } else {
      KickSum(v[1..], a[1..], aNext[1..], dt, w[1..]);
      assert w[0] == v[0] + HalfStep(a[0] + aNext[0], dt);
      HalfStepAdds(a[0] + aNext[0], MathFns.Sum(a[1..]) + MathFns.Sum(aNext[1..]), dt);
    }
  }

  /**
   * Conservation of momentum through the velocity update: when the old
   * accelerations of an axis sum to zero, as they do after the constructor
   * and after every step, and the new ones do too, the kicks leave the sum
   * of that velocity component unchanged.
   */
  lemma KickKeepsMomentum(v: seq<real>, a: seq<real>, aNext: seq<real>, dt: real, w: seq<real>)
    requires |v| == |a| == |aNext| == |w|
    requires MathFns.Sum(a) == 0.0 && MathFns.Sum(aNext) == 0.0
    requires forall r :: 0 <= r < |w| ==> w[r] == Kick(v[r], a[r], aNext[r], dt)
    ensures MathFns.Sum(w) == MathFns.Sum(v)
  {
    KickSum(v, a, aNext, dt, w);
    HalfStepOfZero(MathFns.Sum(a) + MathFns.Sum(aNext), dt);
  }

  class NewtonSys {
    /** `_dim` */
    const dim: nat
    /** `_size`: the side length of the box along each axis. */
    var size: seq<real>
    /** `_time` */
    var time: real
    /** `_n_particles` */
    const nParticles: nat
    /** `_mass` */
    var mass: real
    /** `_particles` */
    const particles: array<Particle>
    /** `_bound` */
    var bound: Bound
    /** `_kinetic_0`, `_potential_0`: the energies of the initial state. */
    var kinetic0: real
    var potential0: real
    /** `model` */
    var model: Model

    ghost predicate Valid()
      reads this, particles
    {
      && |size| == dim && mass != 0.0
      && particles.Length == nParticles
      && forall r :: 0 <= r < particles.Length ==> Shaped(particles[r], dim)
    }

    /** The inputs of the pair loop in the current state. */
    ghost function Snapshot(): (s: Pairs)
      requires Valid()
      reads this, particles
      ensures WellFormed(s) && |s.ps| == nParticles && s.dim == dim && s.model == model && s.mass == mass
    {
      Pairs(model, particles[..], dim, mass)
    }

    /**
     * `NewtonSys(dim, n_particles, M_at, T_init, rho, bound)`, with the box
     * sides and the random positions and velocities as inputs: the particles
     * start there, with the accelerations of the pair loop, and the initial
     * energies are recorded.
     */
    constructor (dim: nat, nParticles: nat, mAt: real, sizes: seq<real>,
                 positions: seq<seq<real>>, velocities: seq<seq<real>>, bound: Bound, model: Model)
      requires mAt != 0.0 && |sizes| == dim
      requires |positions| == nParticles && |velocities| == nParticles
      requires forall j :: 0 <= j < nParticles ==> |positions[j]| == dim && |velocities[j]| == dim
      ensures Valid() && fresh(particles)
      ensures this.dim == dim && this.nParticles == nParticles && size == sizes && time == 0.0
      ensures mass == ParticleMass(mAt) && this.bound == bound && this.model == model
      ensures forall r :: 0 <= r < nParticles ==>
        particles[r].x == positions[r] && particles[r].v == velocities[r] && particles[r].mass == mass
      ensures forall r, i :: 0 <= r < nParticles && 0 <= i < dim ==>
        particles[r].a[i] == Accel(Pairs(model, Start(dim, mass, positions, velocities), dim, mass), r, i)
      ensures kinetic0 == KineticEnergy(particles[..], dim, mass)
      ensures potential0 == PairPotential(model, particles[..], dim, nParticles)
    {
      this.dim := dim;
      this.nParticles := nParticles;
      size := sizes;
      time := 0.0;
      var m := ParticleMass(mAt);
      mass := m;
      this.bound := bound;
      this.model := model;
      particles := new Particle[nParticles](j requires 0 <= j < nParticles =>
        Particle(dim, m, positions[j], velocities[j], seq(dim, i => 0.0)));
      new;
      assert particles[..] == Start(dim, mass, positions, velocities);
      InitialAccelerations();
      kinetic0 := Kinetic();
      potential0 := Potential();
    }

    /** The pair loop of the constructor, which accumulates into the accelerations themselves. */
    method InitialAccelerations()
      requires Valid()
      requires forall r, i :: 0 <= r < nParticles && 0 <= i < dim ==> particles[r].a[i] == 0.0
      modifies particles
      ensures Valid()
      ensures forall r :: 0 <= r < nParticles ==>
        && particles[r].x == old(particles[r].x) && particles[r].v == old(particles[r].v)
        && particles[r].mass == old(particles[r].mass)
      ensures forall r, i :: 0 <= r < nParticles && 0 <= i < dim ==> particles[r].a[i] == Accel(old(Snapshot()), r, i)
    {
      ghost var s := Snapshot();
      forall r, i | 0 <= r < nParticles && 0 <= i < dim
        ensures particles[r].a[i] == Head(s, r, i, 0)
      {
        HeadStart(s, r, i);
      }
      var j := 0;
      while j < nParticles
        invariant 0 <= j <= nParticles && Valid()
        invariant forall r :: 0 <= r < nParticles ==>
          && particles[r].x == s.ps[r].x && particles[r].v == s.ps[r].v && particles[r].mass == s.ps[r].mass
        invariant forall r, i :: 0 <= r < nParticles && 0 <= i < dim ==> particles[r].a[i] == Head(s, r, i, j)
      {
        InitialRow(j, s);
        j := j + 1;
      }
    }

    /** The inner loop of the constructor for particle `j`: the pairs `(j, k)` for every `k > j`. */
    method InitialRow(j: nat, ghost s: Pairs)
      requires Valid() && WellFormed(s) && s.model == model && s.mass == mass && s.dim == dim && |s.ps| == nParticles
      requires j < nParticles
      requires forall r :: 0 <= r < nParticles ==>
        && particles[r].x == s.ps[r].x && particles[r].v == s.ps[r].v && particles[r].mass == s.ps[r].mass
      requires forall r, i :: 0 <= r < nParticles && 0 <= i < dim ==> particles[r].a[i] == Head(s, r, i, j)
      modifies particles
      ensures Valid()
      ensures forall r :: 0 <= r < nParticles ==>
        && particles[r].x == s.ps[r].x && particles[r].v == s.ps[r].v && particles[r].mass == s.ps[r].mass
      ensures forall r, i :: 0 <= r < nParticles && 0 <= i < dim ==> particles[r].a[i] == Head(s, r, i, j + 1)
    {
      forall r, i | 0 <= r < nParticles && 0 <= i < dim
        ensures particles[r].a[i] == Inner(s, r, i, j, j + 1)
      {
        InnerStart(s, r, i, j);
      }
      var k := j + 1;
      while k < nParticles
        invariant j + 1 <= k <= nParticles && Valid()
        invariant forall r :: 0 <= r < nParticles ==>
          && particles[r].x == s.ps[r].x && particles[r].v == s.ps[r].v && particles[r].mass == s.ps[r].mass
        invariant forall r, i :: 0 <= r < nParticles && 0 <= i < dim ==> particles[r].a[i] == Inner(s, r, i, j, k)
      {
        InitialPair(j, k, s);
        k := k + 1;
      }
      forall r, i | 0 <= r < nParticles && 0 <= i < dim
        ensures particles[r].a[i] == Head(s, r, i, j + 1)
      {
        InnerEnd(s, r, i, j);
      }
    }

    /** One pass of the constructor's inner loop: the pair `(j, k)` joins the partial sums of every particle. */
    method InitialPair(j: nat, k: nat, ghost s: Pairs)
      requires Valid() && WellFormed(s) && s.model == model && s.mass == mass && s.dim == dim && |s.ps| == nParticles
      requires j < k < nParticles
      requires forall r :: 0 <= r < nParticles ==>
        && particles[r].x == s.ps[r].x && particles[r].v == s.ps[r].v && particles[r].mass == s.ps[r].mass
      requires forall r, i :: 0 <= r < nParticles && 0 <= i < dim ==> particles[r].a[i] == Inner(s, r, i, j, k)
      modifies particles
      ensures Valid()
      ensures forall r :: 0 <= r < nParticles ==>
        && particles[r].x == s.ps[r].x && particles[r].v == s.ps[r].v && particles[r].mass == s.ps[r].mass
      ensures forall r, i :: 0 <= r < nParticles && 0 <= i < dim ==> particles[r].a[i] == Inner(s, r, i, j, k + 1)
    {
      ghost var before := particles[..];
      AddPairToParticles(j, k, s);
      forall r, i | 0 <= r < nParticles && 0 <= i < dim
        ensures particles[r].a[i] == Inner(s, r, i, j, k + 1)
      {
        InnerStep(s, r, i, j, k);
        if r != j && r != k {
          assert particles[r] == before[r];
        }
      }
    }

    /** One pair `(j, k)` of the constructor's loop: `a_temp = force / mass`, added to `j` and subtracted from `k`. */
    method AddPairToParticles(j: nat, k: nat, ghost s: Pairs)
      requires Valid() && WellFormed(s) && s.model == model && s.mass == mass && s.dim == dim && |s.ps| == nParticles
      requires j < k < nParticles
      requires forall r :: 0 <= r < nParticles ==> particles[r].x == s.ps[r].x
      modifies particles
      ensures Valid()
      ensures forall r :: 0 <= r < nParticles && r != j && r != k ==> particles[r] == old(particles[r])
      ensures particles[j] == old(particles[j]).(a := particles[j].a)
      ensures particles[k] == old(particles[k]).(a := particles[k].a)
      ensures forall i :: 0 <= i < dim ==>
        && particles[j].a[i] == old(particles[j].a[i]) + Pull(s, j, k, i)
        && particles[k].a[i] == old(particles[k].a[i]) - Pull(s, j, k, i)
    {
      ghost var ps := particles[..];
      var aTemp := Force(model, particles[j], particles[k]);
      ForceOfPositions(model, particles[j], particles[k], s.ps[j], s.ps[k]);
      var i := 0;
      while i < dim
        invariant 0 <= i <= dim && Valid() && |aTemp| == dim
        invariant forall c :: i <= c < dim ==> aTemp[c] == Force(s.model, s.ps[j], s.ps[k])[c]
        invariant forall r :: 0 <= r < nParticles && r != j && r != k ==> particles[r] == ps[r]
        invariant particles[j] == ps[j].(a := particles[j].a) && particles[k] == ps[k].(a := particles[k].a)
        invariant forall c :: 0 <= c < dim ==>
          && particles[j].a[c] == ps[j].a[c] + (if c < i then Pull(s, j, k, c) else 0.0)
          && particles[k].a[c] == ps[k].a[c] + (if c < i then -Pull(s, j, k, c) else 0.0)
      {
        aTemp := aTemp[i := aTemp[i] / mass];
        var pj := particles[j];
        particles[j] := pj.(a := pj.a[i := pj.a[i] + aTemp[i]]);
        var pk := particles[k];
        particles[k] := pk.(a := pk.a[i := pk.a[i] - aTemp[i]]);
        i := i + 1;
      }
    }

    /** `size(d)`: the side of the box along axis `d`, or 0 for an axis the box does not have. */
    function Size(d: nat): (r: real)
      requires Valid() && dim >= 1
      reads this, particles
      ensures d < dim ==> r == size[d]
      ensures d >= dim ==> r == 0.0
    {
      if d > dim - 1 then 0.0 else size[d]
    }

    /** `kinetic()`: `0.5 · mass · Σ_j Σ_i v_j[i]²`. */
    method Kinetic() returns (e: real)
      requires Valid()
      ensures e == KineticEnergy(particles[..], dim, mass)
    {
      var ek := 0.0;
      var j := 0;
      while j < nParticles
        invariant 0 <= j <= nParticles
        invariant ek == SpeedSum(particles[..], dim, j)
      {
        var i := 0;
        while i < dim
          invariant 0 <= i <= dim
          invariant ek == SpeedSum(particles[..], dim, j) + SquaredSpeed(particles[j].v, i)
        {
          ek := ek + MathFns.Power(particles[j].v[i], 2);
          i := i + 1;
        }
        j := j + 1;
      }
      e := 0.5 * mass * ek;
    }

    /** `potential()`: `Σ_{j<k} 2 · potential(p_j, p_k)`. */
    method Potential() returns (e: real)
      requires Valid()
      ensures e == PairPotential(model, particles[..], dim, nParticles)
    {
      var ep := 0.0;
      var j := 0;
      while j < nParticles
        invariant 0 <= j <= nParticles
        invariant ep == PairPotential(model, particles[..], dim, j)
      {
        var k := j + 1;
        while k < nParticles
          invariant j + 1 <= k <= nParticles
          invariant ep == PairPotential(model, particles[..], dim, j) + RowPotential(model, particles[..], dim, j, k)
        {
          ep := ep + 2.0 * PotentialEnergy(model, particles[j], particles[k]);
          k := k + 1;
        }
        j := j + 1;
      }
      e := ep;
    }

    /**
     * `vverlet(dt)`: time advances by `dt`; every coordinate drifts and
     * meets the boundary rule; then each particle's velocity takes the mean
     * of its old and new accelerations, and the new acceleration is the net
     * pair force at the new positions over the mass, so that on each axis
     * the new accelerations sum to zero.
     */
    method Vverlet(dt: real)
      requires Valid()
      modifies this, particles
      ensures Valid()
      ensures time == old(time) + dt
      ensures size == old(size) && mass == old(mass) && bound == old(bound) && model == old(model)
      ensures kinetic0 == old(kinetic0) && potential0 == old(potential0)
      ensures var s := Pairs(model, DriftAll(old(particles[..]), bound, size, dt), dim, mass);
        WellFormed(s) && forall r :: 0 <= r < nParticles ==> Kicked(s, r, particles[r], dt)
      ensures forall i :: 0 <= i < dim ==> MathFns.Sum(AxisAccelerations(particles[..], i)) == 0.0
    {
      time := time + dt;
      MoveParticles(dt);
      Accelerate(dt);
    }

    /** The position loop of `vverlet`. */
    method MoveParticles(dt: real)
      requires Valid()
      modifies particles
      ensures Valid()
      ensures particles[..] == DriftAll(old(particles[..]), bound, size, dt)
    {
      var j := 0;
      while j < nParticles
        invariant 0 <= j <= nParticles && Valid()
        invariant forall r :: 0 <= r < j ==> particles[r] == DriftParticle(old(particles[r]), bound, size, dt)
        invariant forall r :: j <= r < nParticles ==> particles[r] == old(particles[r])
      {
        MoveParticle(j, dt);
        j := j + 1;
      }
    }

    /** The loop over the axes of `vverlet` for particle `j`: each coordinate drifts and meets the boundary rule. */
    method MoveParticle(j: nat, dt: real)
      requires Valid() && j < nParticles
      modifies particles
      ensures Valid()
      ensures particles[j] == DriftParticle(old(particles[j]), bound, size, dt)
      ensures forall r :: 0 <= r < nParticles && r != j ==> particles[r] == old(particles[r])
    {
      ghost var p := particles[j];
      var i := 0;
      while i < dim
        invariant 0 <= i <= dim && Valid()
        invariant forall r :: 0 <= r < nParticles && r != j ==> particles[r] == old(particles[r])
        invariant particles[j].dim == p.dim && particles[j].mass == p.mass && particles[j].a == p.a
        invariant forall c :: 0 <= c < i ==>
          particles[j].x[c] == Moved(p, bound, size, dt, c).0 && particles[j].v[c] == Moved(p, bound, size, dt, c).1
        invariant forall c :: i <= c < dim ==> particles[j].x[c] == p.x[c] && particles[j].v[c] == p.v[c]
      {
        var q := particles[j];
        var moved := Apply(bound, Drift(q.x[i], q.v[i], q.a[i], dt), q.v[i], size[i]);
        particles[j] := q.(x := q.x[i := moved.0], v := q.v[i := moved.1]);
        i := i + 1;
      }
      assert particles[j].x == DriftParticle(p, bound, size, dt).x;
      assert particles[j].v == DriftParticle(p, bound, size, dt).v;
    }

    /** The acceleration and velocity loop of `vverlet`, which accumulates into `a_next`. */
    method Accelerate(dt: real)
      requires Valid()
      modifies particles
      ensures Valid()
      ensures forall r :: 0 <= r < nParticles ==> Kicked(old(Snapshot()), r, particles[r], dt)
      ensures forall i :: 0 <= i < dim ==> MathFns.Sum(AxisAccelerations(particles[..], i)) == 0.0
    {
      ghost var s := Snapshot();
      var aNext := new real[nParticles, dim]((r, c) => 0.0);
      var j := 0;
      while j < nParticles
        invariant 0 <= j <= nParticles && Valid()
        invariant forall r, c :: 0 <= r < nParticles && 0 <= c < dim ==> aNext[r, c] == Head(s, r, c, j)
        invariant forall r :: j <= r < nParticles ==> particles[r] == s.ps[r]
        invariant forall r :: 0 <= r < j ==> Kicked(s, r, particles[r], dt)
      {
        AccelerateOne(aNext, j, s, dt);
        j := j + 1;
      }
      forall i | 0 <= i < dim
        ensures MathFns.Sum(AxisAccelerations(particles[..], i)) == 0.0
      {
        AccelSumsToZero(s, i);
        assert AxisAccelerations(particles[..], i) == HeadColumn(s, i, nParticles);
      }
    }

    /** One pass of the outer loop of `vverlet`: the pairs `(j, k)`, then the kick of particle `j`, whose sum is now complete. */
    method AccelerateOne(aNext: array2<real>, j: nat, ghost s: Pairs, dt: real)
      requires Valid() && WellFormed(s) && s.model == model && s.mass == mass && s.dim == dim && |s.ps| == nParticles
      requires j < nParticles && forall r :: j <= r < nParticles ==> particles[r] == s.ps[r]
      requires aNext.Length0 == nParticles && aNext.Length1 == dim
      requires forall r, c :: 0 <= r < nParticles && 0 <= c < dim ==> aNext[r, c] == Head(s, r, c, j)
      modifies aNext, particles
      ensures Valid()
      ensures forall r, c :: 0 <= r < nParticles && 0 <= c < dim ==> aNext[r, c] == Head(s, r, c, j + 1)
      ensures forall r :: 0 <= r < nParticles && r != j ==> particles[r] == old(particles[r])
      ensures Kicked(s, j, particles[j], dt)
    {
      PairRow(aNext, j, s);
      forall c | 0 <= c < dim
        ensures aNext[j, c] == Accel(s, j, c)
      {
        HeadFinal(s, j, c, j + 1);
      }
      KickParticle(j, aNext, dt);
    }

    /** The inner loop of `vverlet` for particle `j`: the pairs `(j, k)` for every `k > j`. */
    method PairRow(aNext: array2<real>, j: nat, ghost s: Pairs)
      requires Valid() && WellFormed(s) && s.model == model && s.mass == mass && s.dim == dim && |s.ps| == nParticles
      requires j < nParticles && forall r :: j <= r < nParticles ==> particles[r] == s.ps[r]
      requires aNext.Length0 == nParticles && aNext.Length1 == dim
      requires forall r, c :: 0 <= r < nParticles && 0 <= c < dim ==> aNext[r, c] == Head(s, r, c, j)
      modifies aNext
      ensures forall r, c :: 0 <= r < nParticles && 0 <= c < dim ==> aNext[r, c] == Head(s, r, c, j + 1)
    {
      forall r, c | 0 <= r < nParticles && 0 <= c < dim
        ensures aNext[r, c] == Inner(s, r, c, j, j + 1)
      {
        InnerStart(s, r, c, j);
      }
      var k := j + 1;
      while k < nParticles
        invariant j + 1 <= k <= nParticles
        invariant forall r, c :: 0 <= r < nParticles && 0 <= c < dim ==> aNext[r, c] == Inner(s, r, c, j, k)
      {
        AddPair(aNext, j, k, s);
        k := k + 1;
      }
      forall r, c | 0 <= r < nParticles && 0 <= c < dim
        ensures aNext[r, c] == Head(s, r, c, j + 1)
      {
        InnerEnd(s, r, c, j);
      }
    }

    /**
     * One pair `(j, k)` of `vverlet`: `a_temp = force / mass`, added to
     * `a_next[j]` and subtracted from `a_next[k]`, which takes the partial
     * sums of the inner loop from `k` to `k + 1`.
     */
    method AddPair(aNext: array2<real>, j: nat, k: nat, ghost s: Pairs)
      requires Valid() && WellFormed(s) && s.model == model && s.mass == mass && s.dim == dim && |s.ps| == nParticles
      requires j < k < nParticles && particles[j] == s.ps[j] && particles[k] == s.ps[k]
      requires aNext.Length0 == nParticles && aNext.Length1 == dim
      requires forall r, c :: 0 <= r < nParticles && 0 <= c < dim ==> aNext[r, c] == Inner(s, r, c, j, k)
      modifies aNext
      ensures forall r, c :: 0 <= r < nParticles && 0 <= c < dim ==>
        aNext[r, c] == old(aNext[r, c]) + (if r == j then Pull(s, j, k, c) else if r == k then -Pull(s, j, k, c) else 0.0)
      ensures forall r, c :: 0 <= r < nParticles && 0 <= c < dim ==> aNext[r, c] == Inner(s, r, c, j, k + 1)
    {
      var aTemp := Force(model, particles[j], particles[k]);
      var i := 0;
      while i < dim
        invariant 0 <= i <= dim && |aTemp| == dim
        invariant forall c :: i <= c < dim ==> aTemp[c] == Force(s.model, s.ps[j], s.ps[k])[c]
        invariant forall r, c :: 0 <= r < nParticles && 0 <= c < dim ==>
          aNext[r, c] == old(aNext[r, c])
            + (if c < i && r == j then Pull(s, j, k, c) else if c < i && r == k then -Pull(s, j, k, c) else 0.0)
      {
        aTemp := aTemp[i := aTemp[i] / mass];
        aNext[j, i] := aNext[j, i] + aTemp[i];
        aNext[k, i] := aNext[k, i] - aTemp[i];
        i := i + 1;
      }
      forall r, c | 0 <= r < nParticles && 0 <= c < dim
        ensures aNext[r, c] == Inner(s, r, c, j, k + 1)
      {
        InnerStep(s, r, c, j, k);
      }
    }

    /** The velocity half-step and acceleration update of particle `j`. */
    method KickParticle(j: nat, aNext: array2<real>, dt: real)
      requires Valid() && j < nParticles && aNext.Length0 == nParticles && aNext.Length1 == dim
      modifies particles
      ensures Valid()
      ensures forall r :: 0 <= r < nParticles && r != j ==> particles[r] == old(particles[r])
      ensures particles[j].mass == old(particles[j].mass) && particles[j].x == old(particles[j].x)
      ensures forall c :: 0 <= c < dim ==>
        && particles[j].v[c] == Kick(old(particles[j].v[c]), old(particles[j].a[c]), aNext[j, c], dt)
        && particles[j].a[c] == aNext[j, c]
    {
      ghost var p := particles[j];
      var i := 0;
      while i < dim
        invariant 0 <= i <= dim && Valid()
        invariant forall r :: 0 <= r < nParticles && r != j ==> particles[r] == old(particles[r])
        invariant particles[j].mass == p.mass && particles[j].x == p.x
        invariant forall c :: 0 <= c < i ==>
          particles[j].v[c] == Kick(p.v[c], p.a[c], aNext[j, c], dt) && particles[j].a[c] == aNext[j, c]
        invariant forall c :: i <= c < dim ==> particles[j].v[c] == p.v[c] && particles[j].a[c] == p.a[c]
      {
        var q := particles[j];
        particles[j] := q.(v := q.v[i := q.v[i] + 0.5 * (q.a[i] + aNext[j, i]) * dt]);
        q := particles[j];
        particles[j] := q.(a := q.a[i := aNext[j, i]]);
        i := i + 1;
      }
    }
  }
}
