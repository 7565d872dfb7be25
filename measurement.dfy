/**
 * `Real`: a measured number, i.e. a value `v` with an absolute uncertainty
 * `u`, the relative uncertainty `r = u / v`, and the flag `unc` that says
 * whether the number carries an uncertainty at all.
 *
 * Two versions of the type exist side by side: the class of MetComp (with
 * the ratio constructor and the arithmetic) and the plain struct of mylib
 * (with a value constructor and a verbatim three-field constructor).  Both
 * hold the same four fields and are modelled by one datatype.
 *
 * The uncertainty of a combined number is `pnorm(2, a, b) = sqrt(a² + b²)`.
 * The square root is not modelled: every operator takes it as the parameter
 * `root`, applied to `padder(2, a, b)`.  The diagnostics the constructors and
 * the comparisons write to standard error are output only and are left out.
 */
module Uncertainty {
  import MathFns

  datatype Real = Real(unc: bool, v: real, u: real, r: real)

  function Abs(x: real): (a: real)
    ensures a >= 0.0 && (a == x || a == -x)
  {
    if x < 0.0 then -x else x
  }

  /**
   * The relative uncertainty `u / v` a combined number stores.  A zero value
   * makes the source's quotient an IEEE infinity or NaN; the model stores 0.
   */
  function Ratio(u: real, v: real): (r: real)
    ensures v != 0.0 ==> r * v == u
    ensures v == 0.0 ==> r == 0.0
  {
    if v == 0.0 then 0.0 else u / v
  }

  /** A number without uncertainty has both uncertainty fields zero. */
  predicate Consistent(x: Real)
  {
    (x.unc || (x.u == 0.0 && x.r == 0.0)) && x.u >= 0.0
  }

  /**
   * `Real(v0, r0)` (relative uncertainty `r0`): the value zero and a zero
   * ratio both give a number without uncertainty; otherwise `u = |r0·v0|`
   * and `r = |r0|`.
   */
  function FromRatio(v0: real, r0: real): (x: Real)
    ensures x.v == v0
    ensures v0 == 0.0 ==> !x.unc && x.u == 0.0 && x.r == 0.0
    ensures v0 != 0.0 && r0 == 0.0 ==> !x.unc && x.u == 0.0 && x.r == 0.0
    ensures v0 != 0.0 && r0 != 0.0 ==> x.unc && x.u == Abs(r0 * v0) && x.r == Abs(r0)
  {
    if v0 == 0.0 then Real(false, 0.0, 0.0, 0.0)
    else if r0 == 0.0 then Real(false, v0, 0.0, Abs(r0))
    else Real(true, v0, Abs(r0 * v0), Abs(r0))
  }

  /** `Real(v0)`, which delegates to `Real(v0, 0)` and clears `unc`; the struct's `Real(v)` gives the same fields. */
  function Exact(v0: real): (x: Real)
    ensures !x.unc && x.v == v0 && x.u == 0.0 && x.r == 0.0
    ensures x == FromRatio(v0, 0.0).(unc := false)
  {
    FromRatio(v0, 0.0).(unc := false)
  }

  /** The struct's `Real(v, u, r)`: stores all three values verbatim and sets the flag, even for `v = 0`. */
  function Measured(v: real, u: real, r: real): (x: Real)
    ensures x.unc && x.v == v && x.u == u && x.r == r
  {
    Real(true, v, u, r)
  }

  /** Combines the value `value` with the uncertainty `pnorm(2, a, b)` when either operand is uncertain. */
  function Combine(x: Real, y: Real, value: real, a: real, b: real, root: real -> real): (z: Real)
    ensures z.v == value && z.unc == (x.unc || y.unc)
    ensures !z.unc ==> z.u == 0.0 && z.r == 0.0
    ensures z.unc ==> z.u == root(MathFns.Padder(2, [a, b])) && z.r == Ratio(z.u, value)
  {
    var z := Exact(value);
    if x.unc || y.unc then
      var u := root(MathFns.Padder(2, [a, b]));
      z.(unc := true, u := u, r := Ratio(u, value))
    else z
  }

  /** `x + y`: absolute uncertainties add in quadrature. */
  function Add(x: Real, y: Real, root: real -> real): (z: Real)
    ensures z.v == x.v + y.v && z.unc == (x.unc || y.unc)
    ensures !z.unc ==> z.u == 0.0 && z.r == 0.0
    ensures z.unc ==> z.u == root(x.u * x.u + y.u * y.u) && z.r == Ratio(z.u, z.v)
  {
    MathFns.PadderTwoSquares(x.u, y.u);
    Combine(x, y, x.v + y.v, x.u, y.u, root)
  }

  /** `x - y`: absolute uncertainties add in quadrature. */
  function Sub(x: Real, y: Real, root: real -> real): (z: Real)
    ensures z.v == x.v - y.v && z.unc == (x.unc || y.unc)
    ensures !z.unc ==> z.u == 0.0 && z.r == 0.0
    ensures z.unc ==> z.u == root(x.u * x.u + y.u * y.u) && z.r == Ratio(z.u, z.v)
  {
    MathFns.PadderTwoSquares(x.u, y.u);
    Combine(x, y, x.v - y.v, x.u, y.u, root)
  }

  /** `x * y`: the uncertainty is `pnorm(2, v·u, y.v·y.u)`. */
  function Mul(x: Real, y: Real, root: real -> real): (z: Real)
    ensures z.v == x.v * y.v && z.unc == (x.unc || y.unc)
    ensures !z.unc ==> z.u == 0.0 && z.r == 0.0
    ensures z.unc ==> z.u == root(MathFns.Padder(2, [x.v * x.u, y.v * y.u])) && z.r == Ratio(z.u, z.v)
  {
    Combine(x, y, x.v * y.v, x.v * x.u, y.v * y.u, root)
  }

  /**
   * `x / y`: a zero divisor is reported and the left operand is returned
   * unchanged; otherwise the uncertainty is `pnorm(2, u / y.v, v·y.u / y.v²)`.
   */
  function Div(x: Real, y: Real, root: real -> real): (z: Real)
    ensures y.v == 0.0 ==> z == x
    ensures y.v != 0.0 ==> z.v == x.v / y.v && z.unc == (x.unc || y.unc)
    ensures y.v != 0.0 && !z.unc ==> z.u == 0.0 && z.r == 0.0
    ensures y.v != 0.0 && z.unc ==>
              z.u == root(MathFns.Padder(2, [x.u / y.v, x.v * y.u / (y.v * y.v)])) && z.r == Ratio(z.u, z.v)
  {
    if y.v == 0.0 then x
    else Combine(x, y, x.v / y.v, x.u / y.v, x.v * y.u / (y.v * y.v), root)
  }

  /** `x < y`: the overlap test only writes a diagnostic; the answer is always the plain comparison. */
  function Less(x: Real, y: Real): (b: bool)
    ensures b <==> x.v < y.v
  {
    x.v < y.v
  }

  /** `x > y`: as `<`, the plain comparison of the values. */
  function Greater(x: Real, y: Real): (b: bool)
    ensures b <==> x.v > y.v
  {
    x.v > y.v
  }

  /** `swap`: exchanges all four fields. */
  function Swap(a: Real, b: Real): (r: (Real, Real))
    ensures r.0 == b && r.1 == a
  {
    (b, a)
  }

  /** `operator=`: copy into a temporary and swap with it. */
  function Assign(self: Real, other: Real): (r: Real)
    ensures r == other
  {
    Swap(self, other).0
  }

  /** Every constructor yields a consistent number (the struct's verbatim one given `u >= 0`). */
  lemma ConstructorsConsistent(v0: real, r0: real, u: real)
    requires u >= 0.0
    ensures Consistent(FromRatio(v0, r0)) && Consistent(Exact(v0))
    ensures Consistent(Measured(v0, u, r0))
  {
  }

  /** For an uncertain number built from a ratio, `u = r·|v|`: the stored ratio is relative to the value. */
  lemma {:induction false} FromRatioRelative(v0: real, r0: real)
    requires v0 != 0.0 && r0 != 0.0
    ensures FromRatio(v0, r0).u == FromRatio(v0, r0).r * Abs(v0)
  {
    AbsMul(r0, v0);
  }

  lemma AbsMul(a: real, b: real)
    ensures Abs(a * b) == Abs(a) * Abs(b)
  {
    if a < 0.0 && b < 0.0 {
      assert a * b == (-a) * (-b);
    } else if a < 0.0 {
      assert -(a * b) == (-a) * b;
    } else if b < 0.0 {
      assert -(a * b) == a * (-b);
    }
  }

  /** The operators keep numbers consistent when the square root never returns a negative number. */
  lemma {:induction false} OperatorsConsistent(x: Real, y: Real, root: real -> real)
    requires forall t :: t >= 0.0 ==> root(t) >= 0.0
    ensures Consistent(Add(x, y, root)) && Consistent(Sub(x, y, root)) && Consistent(Mul(x, y, root))
    ensures Consistent(x) ==> Consistent(Div(x, y, root))
  {
    AddSubConsistent(x, y, root);
    MulConsistent(x, y, root);
    if Consistent(x) {
      DivConsistent(x, y, root);
    }
  }

  lemma {:induction false} AddSubConsistent(x: Real, y: Real, root: real -> real)
    requires forall t :: t >= 0.0 ==> root(t) >= 0.0
    ensures Consistent(Add(x, y, root)) && Consistent(Sub(x, y, root))
  {
    CombineConsistent(x, y, x.v + y.v, x.u, y.u, root);
    CombineConsistent(x, y, x.v - y.v, x.u, y.u, root);
  }

  lemma {:induction false} MulConsistent(x: Real, y: Real, root: real -> real)
    requires forall t :: t >= 0.0 ==> root(t) >= 0.0
    ensures Consistent(Mul(x, y, root))
  {
    var a, b := x.v * x.u, y.v * y.u;
    assert Mul(x, y, root) == Combine(x, y, x.v * y.v, a, b, root);
    CombineConsistent(x, y, x.v * y.v, a, b, root);
  }

  lemma {:induction false} DivConsistent(x: Real, y: Real, root: real -> real)
    requires forall t :: t >= 0.0 ==> root(t) >= 0.0
    requires Consistent(x)
    ensures Consistent(Div(x, y, root))
  {
    if y.v != 0.0 {
      var a, b := x.u / y.v, x.v * y.u / (y.v * y.v);
      DivUnfold(x, y, root);
      CombineConsistent(x, y, x.v / y.v, a, b, root);
    }
  }

  lemma DivUnfold(x: Real, y: Real, root: real -> real)
    requires y.v != 0.0
    ensures Div(x, y, root) == Combine(x, y, x.v / y.v, x.u / y.v, x.v * y.u / (y.v * y.v), root)
  {
  }

  lemma {:induction false} CombineConsistent(x: Real, y: Real, value: real, a: real, b: real, root: real -> real)
    requires forall t :: t >= 0.0 ==> root(t) >= 0.0
    ensures Consistent(Combine(x, y, value, a, b, root))
  {
    MathFns.PadderEvenNonNegative(1, [a, b]);
  }

  /** Exact numbers stay exact: `+`, `-` and `*` of numbers without uncertainty are plain real arithmetic. */
  lemma ExactArithmetic(a: real, b: real, root: real -> real)
    ensures Add(Exact(a), Exact(b), root) == Exact(a + b)
    ensures Sub(Exact(a), Exact(b), root) == Exact(a - b)
    ensures Mul(Exact(a), Exact(b), root) == Exact(a * b)
    ensures b != 0.0 ==> Div(Exact(a), Exact(b), root) == Exact(a / b)
  {
  }

  /** `+` is commutative, uncertainty included. */
  lemma {:induction false} AddCommutes(x: Real, y: Real, root: real -> real)
    ensures Add(x, y, root) == Add(y, x, root)
  {
    MathFns.PadderTwoSquares(x.u, y.u);
    MathFns.PadderTwoSquares(y.u, x.u);
  }

  /** For a non-zero divisor, dividing and multiplying back restores the value. */
  lemma DivThenMulValue(x: Real, y: Real, root: real -> real)
    requires y.v != 0.0
    ensures Mul(Div(x, y, root), y, root).v == x.v
  {
  }

  /** `<` and `>` are mirror images, and never both hold. */
  lemma ComparisonsMirror(x: Real, y: Real)
    ensures Less(x, y) == Greater(y, x)
    ensures !(Less(x, y) && Greater(x, y))
  {
  }
}
