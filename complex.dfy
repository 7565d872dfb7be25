/**
 * The `complex` value type of MetComp: a real and an imaginary part plus the
 * flag `imag`, which every constructor sets exactly when the imaginary part
 * is non-zero.  Every arithmetic operator builds its result through the
 * two-part constructor, so every result keeps that flag invariant.
 *
 * `double` is modelled as `real`, so the arithmetic here is exact.
 */
module ComplexNumbers {
  import MathFns

  datatype Complex = Complex(imag: bool, re: real, im: real)

  /** The flag invariant every constructor establishes. */
  predicate Wf(z: Complex)
  {
    z.imag == (z.im != 0.0)
  }

  /** `complex(re0, im0)`: stores both parts; `imag` is cleared when `im0 == 0`. */
  function Make(re: real, im: real): (z: Complex)
    ensures Wf(z) && z.re == re && z.im == im
  {
    if im == 0.0 then Complex(false, re, im) else Complex(true, re, im)
  }

  /** `complex()`: the default value `0 + 0i`, flag cleared. */
  function Zero(): (z: Complex)
    ensures Wf(z) && !z.imag && z == Make(0.0, 0.0)
  {
    Complex(false, 0.0, 0.0)
  }

  /** Unary minus. */
  function Neg(z: Complex): (r: Complex)
    ensures Wf(r)
  {
    Make(-z.re, -z.im)
  }

  /** Addition of a real number. */
  function AddReal(z: Complex, x: real): (r: Complex)
    ensures Wf(r)
  {
    Make(z.re + x, z.im)
  }

  /** Addition. */
  function Add(z: Complex, w: Complex): (r: Complex)
    ensures Wf(r)
  {
    Make(z.re + w.re, z.im + w.im)
  }

  /** Subtraction of a real number. */
  function SubReal(z: Complex, x: real): (r: Complex)
    ensures Wf(r)
  {
    Make(z.re - x, z.im)
  }

  /** Subtraction. */
  function Sub(z: Complex, w: Complex): (r: Complex)
    ensures Wf(r)
  {
    Make(z.re - w.re, z.im - w.im)
  }

  /** Multiplication by a real number. */
  function MulReal(z: Complex, x: real): (r: Complex)
    ensures Wf(r)
  {
    Make(z.re * x, z.im * x)
  }

  /** Multiplication. */
  function Mul(z: Complex, w: Complex): (r: Complex)
    ensures Wf(r)
  {
    Make(z.re * w.re - z.im * w.im, z.re * w.im + z.im * w.re)
  }

  /**
   * The result of a division: a number, or the infinite or NaN parts that
   * `double` division by zero gives, which the model does not represent.
   */
  datatype Quotient = Finite(value: Complex) | NonFinite

  /** Division by a real number; a zero divisor gives non-finite parts. */
  function DivReal(z: Complex, x: real): (r: Quotient)
    ensures r.NonFinite? <==> x == 0.0
    ensures r.Finite? ==> Wf(r.value) && MulReal(r.value, x) == Make(z.re, z.im)
  {
    if x == 0.0 then NonFinite else Finite(Make(z.re / x, z.im / x))
  }

  /** Conjugate: negates the imaginary part only. */
  function Conj(z: Complex): (r: Complex)
    ensures Wf(r) && r.re == z.re && r.im == -z.im
  {
    Make(z.re, -z.im)
  }

  /** Division: `z * conj(w)` divided by `padder(2, w.re, w.im)`, which is zero only for `w = 0`. */
  function Div(z: Complex, w: Complex): (r: Quotient)
    ensures r.NonFinite? <==> w.re == 0.0 && w.im == 0.0
    ensures r.Finite? ==> Wf(r.value)
  {
    SquaredModulusZero(w);
    DivReal(Mul(z, Conj(w)), MathFns.Padder(2, [w.re, w.im]))
  }

  /** The divisor of the complex division is `padder(2, re, im) = re² + im²`, zero exactly for `0 + 0i`. */
  lemma SquaredModulusZero(w: Complex)
    ensures MathFns.Padder(2, [w.re, w.im]) == w.re * w.re + w.im * w.im
    ensures MathFns.Padder(2, [w.re, w.im]) == 0.0 <==> w.re == 0.0 && w.im == 0.0
  {
    MathFns.PadderTwoSquares(w.re, w.im);
    if w.re != 0.0 || w.im != 0.0 {
      MathFns.PadderTwoPositive(w.re, w.im);
    }
  }

  /** `swap`: exchanges all fields of two numbers. */
  function Swap(a: Complex, b: Complex): (r: (Complex, Complex))
    ensures r.0 == b && r.1 == a
  {
    (b, a)
  }

  /** `operator=(const complex &)`: copies the right-hand side into a temporary and swaps. */
  function Assign(self: Complex, other: Complex): (r: Complex)
    ensures r == other
  {
    Swap(self, other).0
  }

  /** `operator=(const real &)`: swaps in the temporary `complex(x, 0)`. */
  function AssignReal(self: Complex, x: real): (r: Complex)
    ensures Wf(r) && !r.imag && r.re == x && r.im == 0.0
  {
    Swap(self, Make(x, 0.0)).0
  }

  /** Conjugation is an involution on well-formed numbers. */
  lemma ConjInvolution(z: Complex)
    requires Wf(z)
    ensures Conj(Conj(z)) == z
  {
  }

  /** Addition commutes. */
  lemma AddCommutes(z: Complex, w: Complex)
    ensures Add(z, w) == Add(w, z)
  {
  }

  /** Multiplication commutes. */
  lemma MulCommutes(z: Complex, w: Complex)
    ensures Mul(z, w) == Mul(w, z)
  {
  }

  /** Subtraction is addition of the negation. */
  lemma SubIsAddNeg(z: Complex, w: Complex)
    ensures Sub(z, w) == Add(z, Neg(w))
  {
  }

  /** `z * conj(z)` is the real number `re² + im²`. */
  lemma MulConjIsSquaredModulus(z: Complex)
    ensures Mul(z, Conj(z)) == Make(z.re * z.re + z.im * z.im, 0.0)
  {
  }

  /** Numbers with a zero imaginary part behave as reals under `+` and `*`. */
  lemma RealEmbedding(x: real, y: real)
    ensures Add(Make(x, 0.0), Make(y, 0.0)) == Make(x + y, 0.0)
    ensures Mul(Make(x, 0.0), Make(y, 0.0)) == Make(x * y, 0.0)
  {
  }

  /** The parts of the quotient: `(re·c + im·d) / n` and `(im·c − re·d) / n` with `n = c² + d²`. */
  lemma DivParts(z: Complex, w: Complex)
    requires w.re != 0.0 || w.im != 0.0
    ensures w.re * w.re + w.im * w.im != 0.0 && Div(z, w).Finite?
    ensures Div(z, w).value.re == (z.re * w.re + z.im * w.im) / (w.re * w.re + w.im * w.im)
    ensures Div(z, w).value.im == (z.im * w.re - z.re * w.im) / (w.re * w.re + w.im * w.im)
  {
    SquaredModulusZero(w);
    var p := Mul(z, Conj(w));
    assert p.re == z.re * w.re + z.im * w.im;
    assert p.im == z.im * w.re - z.re * w.im;
  }

  /** Division undoes multiplication: `(z / w) * w = z` for `w != 0`. */
  lemma DivThenMul(z: Complex, w: Complex)
    requires Wf(z)
    requires w.re != 0.0 || w.im != 0.0
    ensures Div(z, w).Finite? && Mul(Div(z, w).value, w) == z
  {
    DivParts(z, w);
    var q := Div(z, w).value;
    MulBack(q.re, q.im, z.re, z.im, w.re, w.im, w.re * w.re + w.im * w.im);
    assert Mul(q, w) == Make(z.re, z.im);
  }

  lemma MulBack(qr: real, qi: real, a: real, b: real, c: real, d: real, n: real)
    requires n == c * c + d * d && n != 0.0
    requires qr == (a * c + b * d) / n && qi == (b * c - a * d) / n
    ensures qr * c - qi * d == a
    ensures qr * d + qi * c == b
  {
    QuotientRecombine(a * c + b * d, b * c - a * d, c, d, n);
    ConjugateIdentities(a, b, c, d);
    assert (a * n) / n == a && (b * n) / n == b;
  }

  lemma QuotientRecombine(x: real, y: real, c: real, d: real, n: real)
    requires n != 0.0
    ensures (x / n) * c - (y / n) * d == (x * c - y * d) / n
    ensures (x / n) * d + (y / n) * c == (x * d + y * c) / n
  {
  }

  lemma ConjugateIdentities(a: real, b: real, c: real, d: real)
    ensures (a * c + b * d) * c - (b * c - a * d) * d == a * (c * c + d * d)
    ensures (a * c + b * d) * d + (b * c - a * d) * c == b * (c * c + d * d)
  {
  }
}
