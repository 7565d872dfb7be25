/**
 * The explicit FTCS (forward-time, centred-space) scheme for the diffusion
 * equation: a stability check on `k = D·dt/dx²`, the initial profile
 * (1 at the left end, 0 at the right end, 0.5 in between), and `Nt` sweeps
 * of the three-point stencil over the interior points.
 *
 * The script's module-level constants become parameters of `Simulate`; the
 * values it uses are `DefaultNx` … `DefaultD`.  A run that stops on an
 * uncaught Python exception ends with exit status 1, like `sys.exit(1)`.
 * The first sweep writes into the copy `fn`; the script then rebinds `f` to
 * `fn`, so both names denote one array and every later sweep updates in
 * place.  `Simulate` keeps that aliasing: it assigns the array reference.
 */
module Diffusion {
  import MathFns

  const DefaultNx: nat := 1000
  const DefaultDx: real := 1.0
  const DefaultNt: nat := 10000
  const DefaultDt: real := 1.0
  const DefaultD: real := 0.25

  /** The scheme's constant `k = D·dt/dx²`: positive for a positive diffusivity and time step. */
  function K(d: real, dt: real, dx: real): (k: real)
    requires dx != 0.0
    ensures k * (dx * dx) == d * dt
    ensures d > 0.0 && dt > 0.0 ==> k > 0.0
  {
    MathFns.NonZeroSquare(dx);
    d * dt / (dx * dx)
  }

  /** The stability condition the script checks before any work. */
  predicate Stable(k: real)
    ensures Stable(k) ==> k > 0.0 && 1.0 - 2.0 * k > 0.0
  {
    k > 0.0 && k < 0.5
  }

  /** The script's own constants pass the check: `k = 0.25`. */
  lemma DefaultsStable()
    ensures K(DefaultD, DefaultDt, DefaultDx) == 0.25
    ensures Stable(K(DefaultD, DefaultDt, DefaultDx))
  {
  }

  /** The initial profile: `0.5` everywhere, then `f[0] = 1` and `f[-1] = 0` (the same cell when `n == 1`). */
  function Initial(n: nat): (s: seq<real>)
    requires n >= 1
    ensures |s| == n
    ensures n >= 2 ==> s[0] == 1.0
    ensures s[n - 1] == 0.0
    ensures forall i :: 0 < i < n - 1 ==> s[i] == 0.5
  {
    seq(n, i => if i == n - 1 then 0.0 else if i == 0 then 1.0 else 0.5)
  }

  /**
   * The update of one interior cell from its left neighbour, itself and its
   * right neighbour; a flat neighbourhood, or `k = 0`, leaves the cell as it is.
   */
  function Stencil(left: real, centre: real, right: real, k: real): (r: real)
    ensures left == centre && centre == right ==> r == centre
    ensures k == 0.0 ==> r == centre
  {
    centre + k * (right - 2.0 * centre + left)
  }

  /** The update is the weighted sum `(1−2k)·centre + k·left + k·right`. */
  lemma StencilWeights(left: real, centre: real, right: real, k: real)
    ensures Stencil(left, centre, right, k) == (1.0 - 2.0 * k) * centre + k * left + k * right
  {
  }

  /**
   * Under the stability condition the weights are positive and sum to one,
   * so the new value lies between the smallest and the largest of the three.
   */
  lemma StencilConvex(left: real, centre: real, right: real, k: real, lo: real, hi: real)
    requires 0.0 <= k <= 0.5
    requires lo <= left <= hi && lo <= centre <= hi && lo <= right <= hi
    ensures lo <= Stencil(left, centre, right, k) <= hi
  {
    StencilAbove(left, centre, right, k, lo);
    StencilBelow(left, centre, right, k, hi);
  }

  lemma StencilAbove(left: real, centre: real, right: real, k: real, lo: real)
    requires 0.0 <= k <= 0.5
    requires lo <= left && lo <= centre && lo <= right
    ensures lo <= Stencil(left, centre, right, k)
  {
    StencilShift(left, centre, right, k, lo);
    ProductNonNegative(1.0 - 2.0 * k, centre - lo);
    ProductNonNegative(k, left - lo);
    ProductNonNegative(k, right - lo);
  }

  lemma StencilBelow(left: real, centre: real, right: real, k: real, hi: real)
    requires 0.0 <= k <= 0.5
    requires left <= hi && centre <= hi && right <= hi
    ensures Stencil(left, centre, right, k) <= hi
  {
    StencilShift(left, centre, right, k, hi);
    ProductNonNegative(1.0 - 2.0 * k, hi - centre);
    ProductNonNegative(k, hi - left);
    ProductNonNegative(k, hi - right);
  }

  /** The stencil, shifted by any constant `m`, is the weighted sum of the shifted values. */
  lemma StencilShift(left: real, centre: real, right: real, k: real, m: real)
    ensures Stencil(left, centre, right, k) - m
         == (1.0 - 2.0 * k) * (centre - m) + k * (left - m) + k * (right - m)
  {
  }

  lemma ProductNonNegative(a: real, b: real)
    requires a >= 0.0 && b >= 0.0
    ensures a * b >= 0.0
  {
  }

  /**
   * The first sweep: cells `i .. |dst|−2` of `dst` are written from the
   * unchanged array `src` (`fn[nx] = f[nx] + k·(…)` with `f` and `fn` distinct).
   */
  function SweepInto(src: seq<real>, dst: seq<real>, k: real, i: nat): (r: seq<real>)
    requires |src| == |dst| && i >= 1
    ensures |r| == |dst|
    ensures |dst| >= 1 ==> r[0] == dst[0] && r[|dst| - 1] == dst[|dst| - 1]
    decreases |dst| - i
  {
    if i + 1 >= |dst| then dst
    else SweepInto(src, dst[i := Stencil(src[i - 1], src[i], src[i + 1], k)], k, i + 1)
  }

  /**
   * A later sweep: `f` and `fn` are one array, so cells `i .. |s|−2` are
   * updated in ascending order, each from the already-updated left neighbour.
   */
  function SweepInPlace(s: seq<real>, k: real, i: nat): (r: seq<real>)
    requires i >= 1
    ensures |r| == |s|
    ensures |s| >= 1 ==> r[0] == s[0] && r[|s| - 1] == s[|s| - 1]
    decreases |s| - i
  {
    if i + 1 >= |s| then s
    else SweepInPlace(s[i := Stencil(s[i - 1], s[i], s[i + 1], k)], k, i + 1)
  }

  /** The profile after `n` sweeps: the first into the copy, the rest in place; the two boundary cells never change. */
  function Evolve(s: seq<real>, k: real, n: nat): (r: seq<real>)
    ensures |r| == |s|
    ensures |s| >= 1 ==> r[0] == s[0] && r[|s| - 1] == s[|s| - 1]
  {
    if n == 0 then s
    else if n == 1 then SweepInto(s, s, k, 1)
    else SweepInPlace(Evolve(s, k, n - 1), k, 1)
  }

  /**
   * The first sweep in closed form: every cell from `i` to the last but one
   * is the stencil of the old neighbourhood; the others are kept.
   */
  lemma {:induction false} SweepIntoCells(src: seq<real>, dst: seq<real>, k: real, i: nat)
    requires |src| == |dst| && i >= 1
    ensures forall j :: 0 <= j < |dst| && (j < i || j + 1 >= |dst|) ==> SweepInto(src, dst, k, i)[j] == dst[j]
    ensures forall j :: i <= j && j + 1 < |dst| ==>
              SweepInto(src, dst, k, i)[j] == Stencil(src[j - 1], src[j], src[j + 1], k)
    decreases |dst| - i
  {
    if i + 1 < |dst| {
      SweepIntoCells(src, dst[i := Stencil(src[i - 1], src[i], src[i + 1], k)], k, i + 1);
    }
  }

  /**
   * An in-place sweep in closed form: the cells before `i` and the last cell
   * are kept, and every swept cell is the stencil of its NEW left neighbour,
   * its own old value and its old right neighbour.
   */
  lemma {:induction false} SweepInPlaceCells(s: seq<real>, k: real, i: nat)
    requires i >= 1
    ensures forall j :: 0 <= j < |s| && (j < i || j + 1 >= |s|) ==> SweepInPlace(s, k, i)[j] == s[j]
    ensures forall j :: i <= j && j + 1 < |s| ==>
              SweepInPlace(s, k, i)[j] == Stencil(SweepInPlace(s, k, i)[j - 1], s[j], s[j + 1], k)
    decreases |s| - i
  {
    if i + 1 < |s| {
      var t := s[i := Stencil(s[i - 1], s[i], s[i + 1], k)];
      SweepInPlaceCells(t, k, i + 1);
    }
  }

  /** All values of `s` lie in `[lo, hi]`. */
  predicate Within(s: seq<real>, lo: real, hi: real)
  {
    forall i :: 0 <= i < |s| ==> lo <= s[i] <= hi
  }

  lemma {:induction false} SweepIntoWithin(src: seq<real>, dst: seq<real>, k: real, i: nat, lo: real, hi: real)
    requires |src| == |dst| && i >= 1 && 0.0 <= k <= 0.5
    requires Within(src, lo, hi) && Within(dst, lo, hi)
    ensures Within(SweepInto(src, dst, k, i), lo, hi)
    decreases |dst| - i
  {
    if i + 1 < |dst| {
      StencilConvex(src[i - 1], src[i], src[i + 1], k, lo, hi);
      SweepIntoWithin(src, dst[i := Stencil(src[i - 1], src[i], src[i + 1], k)], k, i + 1, lo, hi);
    }
  }

  lemma {:induction false} SweepInPlaceWithin(s: seq<real>, k: real, i: nat, lo: real, hi: real)
    requires i >= 1 && 0.0 <= k <= 0.5
    requires Within(s, lo, hi)
    ensures Within(SweepInPlace(s, k, i), lo, hi)
    decreases |s| - i
  {
    if i + 1 < |s| {
      StencilConvex(s[i - 1], s[i], s[i + 1], k, lo, hi);
      SweepInPlaceWithin(s[i := Stencil(s[i - 1], s[i], s[i + 1], k)], k, i + 1, lo, hi);
    }
  }

  /** Under the stability condition, values that start in `[lo, hi]` stay there through every sweep. */
  lemma {:induction false} EvolveWithin(s: seq<real>, k: real, n: nat, lo: real, hi: real)
    requires Stable(k) && Within(s, lo, hi)
    ensures Within(Evolve(s, k, n), lo, hi)
  {
    if n == 1 {
      SweepIntoWithin(s, s, k, 1, lo, hi);
    } else if n > 1 {
      EvolveWithin(s, k, n - 1, lo, hi);
      SweepInPlaceWithin(Evolve(s, k, n - 1), k, 1, lo, hi);
    }
  }

  /** The initial profile lies in `[0, 1]`, so the whole run does, with the boundary values 1 and 0 fixed. */
  lemma RunWithinUnitInterval(nX: nat, k: real, nT: nat)
    requires nX >= 2 && Stable(k)
    ensures Within(Evolve(Initial(nX), k, nT), 0.0, 1.0)
    ensures Evolve(Initial(nX), k, nT)[0] == 1.0 && Evolve(Initial(nX), k, nT)[nX - 1] == 0.0
  {
    EvolveWithin(Initial(nX), k, nT, 0.0, 1.0);
  }

  /**
   * The loop over `nx` of one time step: `fn[nx]` becomes the stencil of
   * `f[nx−1..nx+1]` for every inner cell. On the first step `fn` is a copy
   * of `f`; on every later one they are the same array.
   */
  method Sweep(f: array<real>, fn: array<real>, k: real, ghost first: bool)
    requires first ==> f != fn && fn[..] == f[..]
    requires !first ==> f == fn
    modifies fn
    ensures first ==> fn[..] == SweepInto(f[..], f[..], k, 1)
    ensures !first ==> fn[..] == SweepInPlace(old(fn[..]), k, 1)
  {
    ghost var cur := f[..];
    var nx := 1;
    while nx + 1 < fn.Length
      invariant 1 <= nx
      invariant first ==> f[..] == cur
      invariant first ==> SweepInto(cur, fn[..], k, nx) == SweepInto(cur, cur, k, 1)
      invariant !first ==> SweepInPlace(fn[..], k, nx) == SweepInPlace(cur, k, 1)
    {
      fn[nx] := Stencil(f[nx - 1], f[nx], f[nx + 1], k);
      nx := nx + 1;
    }
  }

  /**
   * The whole script: exit status 1 when `dx = 0` (division by zero), when
   * `k` fails the stability check, or when `Nx = 0` (`f[0]` is out of
   * range); otherwise status 0 and the profile after `Nt` sweeps.
   */
  method Simulate(nX: nat, nT: nat, dx: real, dt: real, d: real) returns (status: int, f: array<real>)
    ensures status == 0 <==> dx != 0.0 && Stable(K(d, dt, dx)) && nX >= 1
    ensures status != 0 ==> status == 1
    ensures status == 0 ==> f.Length == nX && f[..] == Evolve(Initial(nX), K(d, dt, dx), nT)
  {
    if dx == 0.0 {
      return 1, new real[0];
    }
    var k := K(d, dt, dx);
    if !(k > 0.0 && k < 0.5) {
      return 1, new real[0];
    }
    if nX == 0 {
      return 1, new real[0];
    }
    f := new real[nX](_ => 0.5);
    f[0] := 1.0;
    f[nX - 1] := 0.0;
    assert f[..] == Initial(nX);
    var fn := new real[nX](i requires 0 <= i < nX reads f => f[i]);
    assert fn[..] == f[..];
    var nt := 0;
    while nt < nT
      invariant 0 <= nt <= nT
      invariant f.Length == nX && fn.Length == nX
      invariant nt == 0 ==> f != fn && fn[..] == f[..]
      invariant nt > 0 ==> f == fn
      invariant f[..] == Evolve(Initial(nX), k, nt)
    {
      Sweep(f, fn, k, nt == 0);
      f := fn;
      nt := nt + 1;
    }
    status := 0;
  }
}
