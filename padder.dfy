/**
 * `math::padder` of MetComp.h: the sum of its arguments, each raised to the
 * natural-number power `p`.  The variadic recursion takes at least one
 * argument; the model takes them as a non-empty sequence.
 */
module MathFns {

  /** `pow(x, p)` for a natural-number exponent (exact over the reals, with `0^0 = 1`). */
  function Power(x: real, p: nat): (r: real)
  {
    if p == 0 then 1.0 else x * Power(x, p - 1)
  }

  /** Plain sum of a sequence, the reference the padder is compared with. */
  function Sum(s: seq<real>): (total: real)
  {
    if s == [] then 0.0 else s[0] + Sum(s[1..])
  }

  /** Every element raised to `p`. */
  function Powers(p: nat, s: seq<real>): (r: seq<real>)
    ensures |r| == |s|
    ensures forall i :: 0 <= i < |s| ==> r[i] == Power(s[i], p)
  {
    seq(|s|, i requires 0 <= i < |s| => Power(s[i], p))
  }

  /**
   * `padder(p, n)` returns `pow(n, p)`; `padder(p, n, ns...)` returns
   * `pow(n, p) + padder(p, ns...)`.
   */
  function Padder(p: nat, ns: seq<real>): (r: real)
    requires |ns| >= 1
    ensures p == 1 ==> r == Sum(ns)
  {
    assert p == 1 ==> Power(ns[0], p) == ns[0];
    if |ns| == 1 then
      assert ns[1..] == [];
      Power(ns[0], p)
    else Power(ns[0], p) + Padder(p, ns[1..])
  }

  /** The padder is the sum of the `p`-th powers of its arguments. */
  lemma {:induction false} PadderIsSumOfPowers(p: nat, ns: seq<real>)
    requires |ns| >= 1
    ensures Padder(p, ns) == Sum(Powers(p, ns))
  {
    if |ns| == 1 {
      assert Powers(p, ns)[1..] == [];
    } else {
      PadderIsSumOfPowers(p, ns[1..]);
      assert Powers(p, ns)[1..] == Powers(p, ns[1..]);
    }
  }

  /** Splitting the argument list splits the padder. */
  lemma {:induction false} PadderAppend(p: nat, xs: seq<real>, ys: seq<real>)
    requires |xs| >= 1 && |ys| >= 1
    ensures Padder(p, xs + ys) == Padder(p, xs) + Padder(p, ys)
  {
    if |xs| == 1 {
      assert (xs + ys)[1..] == ys;
    } else {
      assert (xs + ys)[1..] == xs[1..] + ys;
      PadderAppend(p, xs[1..], ys);
    }
  }

  /** With exponent 0 every argument contributes 1: the padder counts its arguments. */
  lemma {:induction false} PadderZeroCounts(ns: seq<real>)
    requires |ns| >= 1
    ensures Padder(0, ns) == |ns| as real
  {
    if |ns| > 1 {
      PadderZeroCounts(ns[1..]);
    }
  }

  /** An even power is never negative. */
  lemma {:induction false} EvenPowerNonNegative(x: real, q: nat)
    ensures Power(x, 2 * q) >= 0.0
  {
    if q > 0 {
      EvenPowerNonNegative(x, q - 1);
      var rest := Power(x, 2 * (q - 1));
      assert Power(x, 2 * q - 1) == x * rest;
      assert Power(x, 2 * q) == x * (x * rest);
      assert x * x >= 0.0;
      assert (x * x) * rest >= 0.0;
    }
  }

  /** With an even exponent the padder is never negative. */
  lemma {:induction false} PadderEvenNonNegative(q: nat, ns: seq<real>)
    requires |ns| >= 1
    ensures Padder(2 * q, ns) >= 0.0
  {
    EvenPowerNonNegative(ns[0], q);
    if |ns| > 1 {
      PadderEvenNonNegative(q, ns[1..]);
    }
  }

  /** `padder(2, a, b) = a² + b²`, the form the complex division uses. */
  lemma PadderTwoSquares(a: real, b: real)
    ensures Padder(2, [a, b]) == a * a + b * b
  {
    assert [a, b][1..] == [b];
    PowerTwo(a);
    PowerTwo(b);
  }

  lemma PowerTwo(x: real)
    ensures Power(x, 2) == x * x
  {
    assert Power(x, 1) == x * Power(x, 0);
  }

  /** A square is never negative, and positive for a non-zero base. */
  lemma PowerTwoSign(x: real)
    ensures Power(x, 2) >= 0.0
    ensures x != 0.0 ==> Power(x, 2) > 0.0
  {
    assert Power(x, 1) == x;
    if x > 0.0 {
      assert x * x > 0.0;
    } else if x < 0.0 {
      assert x * x > 0.0;
    }
  }

  /** `padder(2, a, b)` is positive unless both arguments are zero. */
  lemma PadderTwoPositive(a: real, b: real)
    requires a != 0.0 || b != 0.0
    ensures Padder(2, [a, b]) > 0.0
  {
    assert [a, b][1..] == [b];
    assert Padder(2, [a, b]) == Power(a, 2) + Power(b, 2);
    PowerTwoSign(a);
    PowerTwoSign(b);
  }

  /** A non-zero number has a non-zero square: the divisor `dx²` of the grid constants. */
  lemma NonZeroSquare(x: real)
    requires x != 0.0
    ensures x * x != 0.0
  {
    if x > 0.0 {
      assert x * x > 0.0;
    } else {
      assert (-x) * (-x) > 0.0;
    }
  }
}
