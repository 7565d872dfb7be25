/**
 * The scalar specialisation of `rk4`: one step of the classical fourth-order
 * Runge–Kutta method for `dy/dt = f(t, y)`, which updates `t` and `y`
 * through references.  The extra arguments the source forwards to `f` are
 * absorbed into the function value `f`.
 */
module RungeKutta {

  /**
   * `y + h·k`: an Euler move from `y` with slope `k` over `h`.  The stage
   * points `y + h·k/2` of the source are `EulerMove(y, h / 2, k)`, and the
   * final update `y + h·(k1 + 2·k2 + 2·k3 + k4)/6` is `EulerMove(y, h, (…)/6)`.
   */
  function EulerMove(y: real, h: real, k: real): (r: real)
  {
    y + h * k
  }

  /**
   * The weighted slope `(k1 + 2·k2 + 2·k3 + k4) / 6` of one step: the
   * weights sum to 1, so a step of length zero, or a right-hand side that
   * takes one value everywhere, gives the slope `f(t, y)` itself.
   */
  function Slope(h: real, f: (real, real) -> real, t: real, y: real): (r: real)
    ensures h == 0.0 ==> r == f(t, y)
    ensures (forall s: real, z: real :: f(s, z) == f(t, y)) ==> r == f(t, y)
  {
    var k1 := f(t, y);
    var k2 := f(t + h / 2.0, EulerMove(y, h / 2.0, k1));
    var k3 := f(t + h / 2.0, EulerMove(y, h / 2.0, k2));
    var k4 := f(t + h, EulerMove(y, h, k3));
    (k1 + 2.0 * k2 + 2.0 * k3 + k4) / 6.0
  }

  /**
   * `rk4(h, f, t, y)`: `t` advances by exactly `h`, and `y` moves by `h`
   * times the weighted slope of the four stages.
   */
  method Rk4(h: real, f: (real, real) -> real, t: real, y: real) returns (tNext: real, yNext: real)
    ensures tNext == t + h
    ensures yNext == y + h * Slope(h, f, t, y)
  {
    var k1, k2, k3, k4: real;
    k1 := f(t, y);
    k2 := f(t + h / 2.0, EulerMove(y, h / 2.0, k1));
    k3 := f(t + h / 2.0, EulerMove(y, h / 2.0, k2));
    k4 := f(t + h, EulerMove(y, h, k3));
    yNext := EulerMove(y, h, (k1 + 2.0 * k2 + 2.0 * k3 + k4) / 6.0);
    tNext := t + h;
  }

  /** For a constant right-hand side `c`, one step adds exactly `h·c`. */
  lemma ConstantSlope(h: real, c: real, t: real, y: real)
    ensures Slope(h, (s, z) => c, t, y) == c
    ensures y + h * Slope(h, (s, z) => c, t, y) == y + h * c
  {
  }

  /** For `f ≡ 0`, a step leaves `y` unchanged. */
  lemma ZeroSlope(h: real, t: real, y: real)
    ensures y + h * Slope(h, (s, z) => 0.0, t, y) == y
  {
  }

  /**
   * When `f` depends on `t` only, the step is Simpson's rule on
   * `[t, t + h]`: `h·(g(t) + 4·g(t + h/2) + g(t + h)) / 6`.
   */
  lemma SimpsonRule(h: real, g: real -> real, t: real, y: real)
    ensures Slope(h, (s, z) => g(s), t, y) == (g(t) + 4.0 * g(t + h / 2.0) + g(t + h)) / 6.0
  {
  }

  /**
   * For the linear equation `dy/dt = λ·y`, one step multiplies `y` by the
   * Taylor polynomial of `exp(λ·h)` to fourth order.
   */
  lemma {:induction false} LinearTaylor(h: real, lambda: real, t: real, y: real)
    ensures y + h * Slope(h, (s, z) => lambda * z, t, y)
         == y * (1.0 + (h * lambda) + (h * lambda) * (h * lambda) / 2.0
                 + (h * lambda) * (h * lambda) * (h * lambda) / 6.0
                 + (h * lambda) * (h * lambda) * (h * lambda) * (h * lambda) / 24.0)
  {
    var f := (s: real, z: real) => lambda * z;
    var k1 := lambda * y;
    var k2 := lambda * (y + h / 2.0 * k1);
    var k3 := lambda * (y + h / 2.0 * k2);
    var k4 := lambda * (y + h * k3);
    assert f(t, y) == k1;
    assert f(t + h / 2.0, EulerMove(y, h / 2.0, k1)) == k2;
    assert f(t + h / 2.0, EulerMove(y, h / 2.0, k2)) == k3;
    assert f(t + h, EulerMove(y, h, k3)) == k4;
    assert Slope(h, f, t, y) == (k1 + 2.0 * k2 + 2.0 * k3 + k4) / 6.0;
    TaylorStages(h, lambda, y, k1, k2, k3, k4);
  }

  lemma TaylorStages(h: real, lambda: real, y: real, k1: real, k2: real, k3: real, k4: real)
    requires k1 == lambda * y
    requires k2 == lambda * (y + h / 2.0 * k1)
    requires k3 == lambda * (y + h / 2.0 * k2)
    requires k4 == lambda * (y + h * k3)
    ensures y + h * ((k1 + 2.0 * k2 + 2.0 * k3 + k4) / 6.0)
         == y * (1.0 + (h * lambda) + (h * lambda) * (h * lambda) / 2.0
                 + (h * lambda) * (h * lambda) * (h * lambda) / 6.0
                 + (h * lambda) * (h * lambda) * (h * lambda) * (h * lambda) / 24.0)
  {
    var x := h * lambda;
    assert h * k1 == x * y;
    assert h * k2 == x * y + x * x * y / 2.0;
    assert h * k3 == x * y + x * x * y / 2.0 + x * x * x * y / 4.0;
    assert h * k4 == x * y + x * x * y + x * x * x * y / 2.0 + x * x * x * x * y / 4.0;
  }
}
