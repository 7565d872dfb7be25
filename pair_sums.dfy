/**
 * The pair loop shared by the constructor and `vverlet` of `NewtonSys`:
 * for `j` from 0 and `k` from `j + 1`, the force of particle `k` on
 * particle `j`, divided by the mass, is added to the accumulator of `j`
 * and subtracted from that of `k`.
 *
 * The functions here describe the accumulators at every point of that loop,
 * for a fixed set of positions, and prove what the loop achieves: every
 * accumulator ends as the net force on its particle divided by the mass,
 * and the accumulators of each axis sum to zero.
 */
module PairSums {
  import opened Interaction
  import MathFns

  /** The inputs of the pair loop: the interaction model, the particles, the dimension and the mass. */
  datatype Pairs = Pairs(model: Model, ps: seq<Particle>, dim: nat, mass: real)

  /** Every particle has the system's dimension, and the mass can be divided by. */
  predicate WellFormed(s: Pairs)
  {
    s.mass != 0.0 && forall r :: 0 <= r < |s.ps| ==> Shaped(s.ps[r], s.dim)
  }

  /** `a_temp[i]` for the pair `(j, k)`: the `i`-th force component on `j` due to `k`, divided by the mass. */
  function Pull(s: Pairs, j: nat, k: nat, i: nat): (a: real)
    requires WellFormed(s) && j < |s.ps| && k < |s.ps| && i < s.dim
  {
    Force(s.model, s.ps[j], s.ps[k])[i] / s.mass
  }

  /** The pulls on `r` from the particles `lo .. hi−1`. */
  function Out(s: Pairs, r: nat, lo: nat, hi: nat, i: nat): (a: real)
    requires WellFormed(s) && r < |s.ps| && lo <= hi <= |s.ps| && i < s.dim
    decreases hi
  {
    if hi == lo then 0.0 else Out(s, r, lo, hi - 1, i) + Pull(s, r, hi - 1, i)
  }

  /** The pulls of `r` on the particles `0 .. hi−1`, which the loop subtracts from `r`. */
  function In(s: Pairs, r: nat, hi: nat, i: nat): (a: real)
    requires WellFormed(s) && r < |s.ps| && hi <= |s.ps| && i < s.dim
  {
    if hi == 0 then 0.0 else In(s, r, hi - 1, i) + Pull(s, hi - 1, r, i)
  }

  function Min(a: nat, b: nat): (m: nat)
  {
    if a < b then a else b
  }

  /** The accumulator of `r`, axis `i`, when the outer loop is about to start on `J`. */
  function Head(s: Pairs, r: nat, i: nat, J: nat): (a: real)
    requires WellFormed(s) && r < |s.ps| && J <= |s.ps| && i < s.dim
  {
    (if r < J then Out(s, r, r + 1, |s.ps|, i) else 0.0) - In(s, r, Min(r, J), i)
  }

  /** The accumulator of `r`, axis `i`, when the inner loop of `J` is about to start on `K`. */
  function Inner(s: Pairs, r: nat, i: nat, J: nat, K: nat): (a: real)
    requires WellFormed(s) && r < |s.ps| && J < K <= |s.ps| && i < s.dim
  {
    Head(s, r, i, J)
      + (if r == J then Out(s, J, J + 1, K, i) else 0.0)
      - (if J < r < K then Pull(s, J, r, i) else 0.0)
  }

  /**
   * The accumulator of `r`, axis `i`, after the whole pair loop: the net
   * force on `r` from all the other particles, divided by the mass.
   */
  function Accel(s: Pairs, r: nat, i: nat): (a: real)
    requires WellFormed(s) && r < |s.ps| && i < s.dim
    ensures a == Net(s, r, |s.ps|, i)
  {
    InIsOut(s, r, r, i);
    NetAbove(s, r, |s.ps|, i);
    Head(s, r, i, |s.ps|)
  }

  /** Before the loop every accumulator is zero. */
  lemma HeadStart(s: Pairs, r: nat, i: nat)
    requires WellFormed(s) && r < |s.ps| && i < s.dim
    ensures Head(s, r, i, 0) == 0.0
  {
  }

  /** The inner loop starts from the state the outer loop reached. */
  lemma InnerStart(s: Pairs, r: nat, i: nat, J: nat)
    requires WellFormed(s) && r < |s.ps| && J < |s.ps| && i < s.dim
    ensures Inner(s, r, i, J, J + 1) == Head(s, r, i, J)
  {
  }

  /** One pair `(J, K)`: the pull is added to `J`, subtracted from `K`, and no other accumulator changes. */
  lemma InnerStep(s: Pairs, r: nat, i: nat, J: nat, K: nat)
    requires WellFormed(s) && r < |s.ps| && J < K < |s.ps| && i < s.dim
    ensures Inner(s, r, i, J, K + 1)
         == Inner(s, r, i, J, K) + (if r == J then Pull(s, J, K, i) else if r == K then -Pull(s, J, K, i) else 0.0)
  {
  }

  /** When the inner loop of `J` ends, the outer loop is ready for `J + 1`. */
  lemma InnerEnd(s: Pairs, r: nat, i: nat, J: nat)
    requires WellFormed(s) && r < |s.ps| && J < |s.ps| && i < s.dim
    ensures Inner(s, r, i, J, |s.ps|) == Head(s, r, i, J + 1)
  {
    if r > J {
      assert In(s, r, J + 1, i) == In(s, r, J, i) + Pull(s, J, r, i);
    }
  }

  /** An accumulator the outer loop has passed keeps its final value. */
  lemma HeadFinal(s: Pairs, r: nat, i: nat, J: nat)
    requires WellFormed(s) && r < J <= |s.ps| && i < s.dim
    ensures Head(s, r, i, J) == Accel(s, r, i)
  {
  }

  /** The pull of `r` on `p` is minus the pull of `p` on `r`. */
  lemma PullAntisymmetric(s: Pairs, p: nat, r: nat, i: nat)
    requires WellFormed(s) && p < |s.ps| && r < |s.ps| && i < s.dim
    ensures Pull(s, p, r, i) == -Pull(s, r, p, i)
  {
    ForceAntisymmetric(s.model, s.ps[p], s.ps[r]);
    NegatedQuotient(Force(s.model, s.ps[r], s.ps[p])[i], s.mass);
  }

  lemma NegatedQuotient(a: real, m: real)
    requires m != 0.0
    ensures (-a) / m == -(a / m)
  {
  }

  /**
   * The reference: the sum of the pulls on `r` from every other particle
   * among `0 .. hi−1`, which is zero for an ideal gas.
   */
  function Net(s: Pairs, r: nat, hi: nat, i: nat): (a: real)
    requires WellFormed(s) && r < |s.ps| && hi <= |s.ps| && i < s.dim
    ensures s.model == IdealGas ==> a == 0.0
  {
    if hi == 0 then 0.0
    else Net(s, r, hi - 1, i) + (if hi - 1 == r then 0.0 else Pull(s, r, hi - 1, i))
  }

  /** What the loop subtracts from `r` is what the particles before `r` pull on it. */
  lemma {:induction false} InIsOut(s: Pairs, r: nat, hi: nat, i: nat)
    requires WellFormed(s) && r < |s.ps| && hi <= |s.ps| && i < s.dim
    ensures In(s, r, hi, i) == -Out(s, r, 0, hi, i)
  {
    if hi > 0 {
      InIsOut(s, r, hi - 1, i);
      PullAntisymmetric(s, hi - 1, r, i);
    }
  }

  lemma {:induction false} NetBelow(s: Pairs, r: nat, hi: nat, i: nat)
    requires WellFormed(s) && r < |s.ps| && hi <= r && i < s.dim
    ensures Net(s, r, hi, i) == Out(s, r, 0, hi, i)
  {
    if hi > 0 {
      NetBelow(s, r, hi - 1, i);
    }
  }

  lemma {:induction false} NetAbove(s: Pairs, r: nat, hi: nat, i: nat)
    requires WellFormed(s) && r < hi <= |s.ps| && i < s.dim
    ensures Net(s, r, hi, i) == Out(s, r, 0, r, i) + Out(s, r, r + 1, hi, i)
  {
    if hi == r + 1 {
      NetBelow(s, r, r, i);
    } else {
      NetAbove(s, r, hi - 1, i);
    }
  }

  /** The accumulators of axis `i` after the outer loop reached `J`. */
  function HeadColumn(s: Pairs, i: nat, J: nat): (c: seq<real>)
    requires WellFormed(s) && J <= |s.ps| && i < s.dim
    ensures |c| == |s.ps| && forall r :: 0 <= r < |s.ps| ==> c[r] == Head(s, r, i, J)
  {
    seq(|s.ps|, r requires 0 <= r < |s.ps| => Head(s, r, i, J))
  }

  /** The accumulators of axis `i` inside the inner loop of `J`, before `K`. */
  function InnerColumn(s: Pairs, i: nat, J: nat, K: nat): (c: seq<real>)
    requires WellFormed(s) && J < K <= |s.ps| && i < s.dim
    ensures |c| == |s.ps| && forall r :: 0 <= r < |s.ps| ==> c[r] == Inner(s, r, i, J, K)
  {
    seq(|s.ps|, r requires 0 <= r < |s.ps| => Inner(s, r, i, J, K))
  }

  lemma {:induction false} SumUpdate(c: seq<real>, a: nat, t: real)
    requires a < |c|
    ensures MathFns.Sum(c[a := c[a] + t]) == MathFns.Sum(c) + t
  {
    if a > 0 {
      assert c[a := c[a] + t][1..] == c[1..][a - 1 := c[1..][a - 1] + t];
      SumUpdate(c[1..], a - 1, t);
    } else {
      assert c[a := c[a] + t][1..] == c[1..];
    }
  }

  lemma {:induction false} SumZeros(c: seq<real>)
    requires forall r :: 0 <= r < |c| ==> c[r] == 0.0
    ensures MathFns.Sum(c) == 0.0
  {
    if c != [] {
      SumZeros(c[1..]);
    }
  }

  lemma {:induction false} InnerSum(s: Pairs, i: nat, J: nat, K: nat)
    requires WellFormed(s) && J < K <= |s.ps| && i < s.dim
    ensures MathFns.Sum(InnerColumn(s, i, J, K)) == MathFns.Sum(HeadColumn(s, i, J))
    decreases K
  {
    if K == J + 1 {
      forall r | 0 <= r < |s.ps|
        ensures InnerColumn(s, i, J, K)[r] == HeadColumn(s, i, J)[r]
      {
        InnerStart(s, r, i, J);
      }
      assert InnerColumn(s, i, J, K) == HeadColumn(s, i, J);
    } else {
      InnerSum(s, i, J, K - 1);
      InnerSumStep(s, i, J, K - 1);
    }
  }

  /** Adding the pair `(J, k)` to the column moves `t` into row `J` and `−t` into row `k`: the sum is unchanged. */
  lemma InnerSumStep(s: Pairs, i: nat, J: nat, k: nat)
    requires WellFormed(s) && J < k < |s.ps| && i < s.dim
    ensures MathFns.Sum(InnerColumn(s, i, J, k + 1)) == MathFns.Sum(InnerColumn(s, i, J, k))
  {
    InnerColumnStep(s, i, J, k);
    SumTransferred(InnerColumn(s, i, J, k), InnerColumn(s, i, J, k + 1), J, k, Pull(s, J, k, i));
  }

  /** Moving `t` out of row `b` into row `a` leaves the sum of the column unchanged. */
  lemma SumTransferred(c: seq<real>, d: seq<real>, a: nat, b: nat, t: real)
    requires a < |c| && b < |c|
    requires var mid := c[a := c[a] + t]; d == mid[b := mid[b] + -t]
    ensures MathFns.Sum(d) == MathFns.Sum(c)
  {
    SumUpdate(c, a, t);
    SumUpdate(c[a := c[a] + t], b, -t);
  }

  /** The column after the pair `(J, k)`: row `J` gained the pull, row `k` lost it. */
  lemma InnerColumnStep(s: Pairs, i: nat, J: nat, k: nat)
    requires WellFormed(s) && J < k < |s.ps| && i < s.dim
    ensures var before, t := InnerColumn(s, i, J, k), Pull(s, J, k, i);
      var mid := before[J := before[J] + t];
      InnerColumn(s, i, J, k + 1) == mid[k := mid[k] + -t]
  {
    var before, t := InnerColumn(s, i, J, k), Pull(s, J, k, i);
    var mid := before[J := before[J] + t];
    var after := mid[k := mid[k] + -t];
    forall r | 0 <= r < |s.ps|
      ensures InnerColumn(s, i, J, k + 1)[r] == after[r]
    {
      InnerStep(s, r, i, J, k);
    }
  }

  lemma {:induction false} HeadSum(s: Pairs, i: nat, J: nat)
    requires WellFormed(s) && J <= |s.ps| && i < s.dim
    ensures MathFns.Sum(HeadColumn(s, i, J)) == 0.0
  {
    if J == 0 {
      forall r | 0 <= r < |s.ps|
        ensures HeadColumn(s, i, 0)[r] == 0.0
      {
        HeadStart(s, r, i);
      }
      SumZeros(HeadColumn(s, i, 0));
    } else {
      HeadSum(s, i, J - 1);
      InnerSum(s, i, J - 1, |s.ps|);
      forall r | 0 <= r < |s.ps|
        ensures InnerColumn(s, i, J - 1, |s.ps|)[r] == HeadColumn(s, i, J)[r]
      {
        InnerEnd(s, r, i, J - 1);
      }
      assert InnerColumn(s, i, J - 1, |s.ps|) == HeadColumn(s, i, J);
    }
  }

  /** Newton's third law for the whole system: on every axis the accelerations sum to zero. */
  lemma AccelSumsToZero(s: Pairs, i: nat)
    requires WellFormed(s) && i < s.dim
    ensures MathFns.Sum(HeadColumn(s, i, |s.ps|)) == 0.0
    ensures forall r :: 0 <= r < |s.ps| ==> HeadColumn(s, i, |s.ps|)[r] == Accel(s, r, i)
  {
    HeadSum(s, i, |s.ps|);
  }
}
