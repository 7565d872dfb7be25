# MetCompC in Dafny

This project models the computational core of MetCompC, a collection of C++ and
Python programs for computational physics, and proves properties of it.

- **MolDyn** (`Newton`, `PairSums`, `Interaction`, `Boundary`): a box of
  identical particles.
  - The particles interact in pairs through the ideal-gas or the
    Lennard-Jones model.
  - They advance by the velocity-Verlet method, with reflecting walls or the
    periodic rule.
  - The system also computes its kinetic and potential energy.
- **The `Line<T>` sampled function** (`SampledLine`):
  - an equally spaced grid of points `(x, f(x))`;
  - a cursor clamped to the grid;
  - indexed reads that fall back to the cursor;
  - splicing of a new function into the sorted slice points.
- **`QuantumSys::Euler`** (`Quantum`): the explicit in-place sweep over a
  complex wave function.
- **The scalar `rk4` step** (`RungeKutta`).
- **Small pieces of the support library**:
  - the `$`-placeholder printers (`Support`);
  - `math::padder` (`MathFns`);
  - `complex` numbers (`ComplexNumbers`);
  - the `Real` value-with-uncertainty type (`Uncertainty`);
  - the integer-endpoint interval classes `Line` and `Domain` (`Interval`).
- **The FTCS diffusion script** (`Diffusion`): a stability guard, an initial
  profile, and an explicit stencil sweep that aliases its buffers after the
  first step.

Every `double` is a Dafny `real`.

Objects whose methods change their fields are Dafny classes:
- `NewtonSys`, `Line<T>` and `QuantumSys`;
- the interval `Line` and `Domain`.

Value types and pure computations are datatypes and functions:
- `complex`, `Real`, `Particle` and the interaction models;
- the printers.

Each loop of the source that updates state is a method with loop invariants,
proved against a specification function, and the properties of that function
are proved as lemmas. Loops that only compute a value, such as the `d2` and
`F` loops of `Lennard_Jones`, are recursive functions.

Two rules of the code are kept as written:
- The enum value `periodic` (MolDyn/lib/moldyn.h:82) selects a rule that
  computes `size − x` in both out-of-range branches (moldyn.h:360-365). It is
  not a wrap-around, and `WrapLeavesBox` proves that a coordinate that left
  the box stays outside it.
- `potential()` adds `2 * model.potential(...)` for every pair `j < k`
  (moldyn.h:323), which counts each pair twice (`PairPotentialOfTwo`).

## Model

| member | source | states |
|---|---|---|
| Support.Printf | mylib/inc/MetComp.h:47-57 | a format without `$` is written unchanged, whatever values are passed, so surplus values are dropped |
| Support.Printfln | mylib/inc/MetComp.h:62-72 | the output ends with a newline whenever the format has at least as many `$` as there are values |
| Support.PrintfNoValues | mylib/src/MetComp.cpp:8-11 | with no values left, `printf` writes the format verbatim and `printfln` adds one newline |
| Support.PrintfFirstPlaceholder | mylib/inc/MetComp.h:47-57 | the text before the first `$` is copied, the `$` becomes the first value, and the rest is formatted with the remaining values |
| Support.PrintfDropsSurplus | mylib/inc/MetComp.h:47-57 | values beyond the number of `$` never appear in the output |
| Support.PrintflnIsPrintfPlusNewline | mylib/inc/MetComp.h:62-72 | `printfln` writes what `printf` writes, plus a newline exactly when the count of `$` is at least the number of values |
| MathFns.Padder | mylib/inc/MetComp.h:90-93 | with exponent 1, `padder` is the plain sum of its arguments |
| MathFns.PadderIsSumOfPowers | mylib/inc/MetComp.h:90-93 | `padder(p, n1..nk) = Σ nᵢ^p` |
| MathFns.PadderAppend | mylib/inc/MetComp.h:90-93 | `padder` over a concatenation is the sum of the two `padder`s |
| MathFns.PadderZeroCounts | mylib/inc/MetComp.h:90-93 | with exponent 0, `padder` counts its arguments |
| MathFns.PadderEvenNonNegative | mylib/inc/MetComp.h:90-93 | with an even exponent, `padder` is non-negative |
| MathFns.PadderTwoPositive | mylib/inc/MetComp.h:90-93 | `padder(2, a, b) = a² + b²`, which is positive unless both are 0 |
| ComplexNumbers.Make | mylib/src/MetComp.cpp:26-30 | `complex(re, im)` stores both parts and sets `imag` exactly when `im ≠ 0` |
| ComplexNumbers.Zero | mylib/src/MetComp.cpp:24 | the default value is `0 + 0i` with `imag` false |
| ComplexNumbers.Neg | mylib/src/MetComp.cpp:80-83 | unary minus keeps the flag invariant |
| ComplexNumbers.Add | mylib/src/MetComp.cpp:92-95 | the sum keeps the flag invariant |
| ComplexNumbers.AddReal | mylib/src/MetComp.cpp:86-89 | adding a real keeps the flag invariant |
| ComplexNumbers.Sub | mylib/src/MetComp.cpp:104-107 | the difference keeps the flag invariant |
| ComplexNumbers.SubReal | mylib/src/MetComp.cpp:98-101 | subtracting a real keeps the flag invariant |
| ComplexNumbers.Mul | mylib/src/MetComp.cpp:116-119 | the product keeps the flag invariant |
| ComplexNumbers.MulReal | mylib/src/MetComp.cpp:110-113 | multiplying by a real keeps the flag invariant |
| ComplexNumbers.DivReal | mylib/src/MetComp.cpp:122-125 | the quotient is non-finite exactly when the divisor is 0; otherwise it keeps the flag invariant, and multiplying it back by the divisor gives the dividend |
| ComplexNumbers.Conj | mylib/src/MetComp.cpp:135-138 | `conj` keeps `re` and negates `im` |
| ComplexNumbers.Div | mylib/src/MetComp.cpp:128-132 | the quotient `z·conj(w) / padder(2, w.re, w.im)` is non-finite exactly when `w = 0 + 0i`, and otherwise keeps the flag invariant |
| ComplexNumbers.Swap | mylib/src/MetComp.cpp:57-61 | `swap` exchanges the two values |
| ComplexNumbers.Assign | mylib/src/MetComp.cpp:73-77 | assignment makes the target equal to the source |
| ComplexNumbers.AssignReal | mylib/src/MetComp.cpp:66-70 | assigning a real gives that real with `im = 0` and `imag` false |
| ComplexNumbers.SquaredModulusZero | mylib/src/MetComp.cpp:128-132 | the divisor `padder(2, w.re, w.im)` is `re² + im²`, which is 0 exactly for `w = 0 + 0i` |
| ComplexNumbers.ConjInvolution | mylib/src/MetComp.cpp:135-138 | `conj(conj(z)) = z` |
| ComplexNumbers.AddCommutes | mylib/src/MetComp.cpp:92-95 | `z + w = w + z` |
| ComplexNumbers.MulCommutes | mylib/src/MetComp.cpp:116-119 | `z·w = w·z` |
| ComplexNumbers.SubIsAddNeg | mylib/src/MetComp.cpp:104-107 | `z − w = z + (−w)` |
| ComplexNumbers.MulConjIsSquaredModulus | mylib/src/MetComp.cpp:116-119 | `z·conj(z) = (re² + im²) + 0i` |
| ComplexNumbers.RealEmbedding | mylib/src/MetComp.cpp:92-119 | on values with `im = 0`, `+` and `*` are the real operations |
| ComplexNumbers.DivParts | mylib/src/MetComp.cpp:128-132 | for `w ≠ 0` the quotient is finite, with the real and imaginary parts of `z / w` |
| ComplexNumbers.DivThenMul | mylib/src/MetComp.cpp:128-132 | `(z / w)·w = z` for `w ≠ 0` |
| Uncertainty.Abs | mylib/src/MetComp.cpp:215 | `std::abs` is non-negative and equals `x` or `−x` |
| Uncertainty.FromRatio | mylib/src/MetComp.cpp:214-229 | `Real(v0, r0)`: `v0 = 0` gives no uncertainty and `u = r = 0`; `r0 = 0` gives no uncertainty and `u = 0`; otherwise `u = |r0·v0|`, `r = |r0|` |
| Uncertainty.Exact | mylib/src/MetComp.cpp:231 | `Real(v0)` has no uncertainty and `u = r = 0` |
| Uncertainty.Measured | mylib/cpp/src/mylib.cpp:9-17 | `Real(v, u, r)` stores all three values and marks the value uncertain, even for `v = 0` |
| Uncertainty.Ratio | mylib/src/MetComp.cpp:259 | `r = u / v`: multiplied back by a non-zero `v` it gives `u`; for `v = 0` the model stores 0 |
| Uncertainty.Combine | mylib/src/MetComp.cpp:254-299 | the shared tail of the operators: the result has the given value, is uncertain iff either operand is, then holds `u = pnorm(2, a, b)` and `r = u / v`, and otherwise `u = r = 0` |
| Uncertainty.Add | mylib/src/MetComp.cpp:254-262 | `z.v = x.v + y.v`; `z` is uncertain iff either operand is; then `u` is the root of the sum of squares and `r = u / v` |
| Uncertainty.Sub | mylib/src/MetComp.cpp:264-272 | `z.v = x.v − y.v`, and the same uncertainty rule as `+` |
| Uncertainty.Mul | mylib/src/MetComp.cpp:274-282 | `z.v = x.v·y.v`; if uncertain, `u = pnorm(2, v·u, y.v·y.u)` |
| Uncertainty.Div | mylib/src/MetComp.cpp:284-299 | a zero divisor returns the left operand unchanged; otherwise `z.v = x.v / y.v` with the propagated uncertainty |
| Uncertainty.Less | mylib/src/MetComp.cpp:301-312 | `<` is the plain comparison of the values, whatever the overlap test says |
| Uncertainty.Greater | mylib/src/MetComp.cpp:314-325 | `>` is the plain comparison of the values |
| Uncertainty.Swap | mylib/src/MetComp.cpp:237-242 | `swap` exchanges the two values |
| Uncertainty.Assign | mylib/src/MetComp.cpp:247-251 | assignment makes the target equal to the source |
| Uncertainty.ConstructorsConsistent | mylib/src/MetComp.cpp:214-231 | every constructor gives a consistent value: no uncertainty means `u = r = 0`, and `u ≥ 0` |
| Uncertainty.FromRatioRelative | mylib/src/MetComp.cpp:214-215 | for non-zero `v0` and `r0`, `u = r·|v0|` |
| Uncertainty.OperatorsConsistent | mylib/src/MetComp.cpp:254-299 | the four operators keep values consistent |
| Uncertainty.ExactArithmetic | mylib/src/MetComp.cpp:254-299 | on exact values the operators are exact real arithmetic |
| Uncertainty.AddCommutes | mylib/src/MetComp.cpp:254-262 | `x + y = y + x`, uncertainty included |
| Uncertainty.DivThenMulValue | mylib/src/MetComp.cpp:274-299 | `((x / y)·y).v = x.v` for `y.v ≠ 0` |
| Uncertainty.ComparisonsMirror | mylib/src/MetComp.cpp:301-325 | `x < y` iff `y > x`, and never both `x < y` and `x > y` |
| Interval.Trunc | lib/cpp/mylib.h:29 | storing a `real` into the `int` vector truncates toward zero |
| Interval.TruncMonotone | lib/cpp/mylib.h:29 | truncation keeps order, so sorted inputs give sorted endpoints |
| Interval.EndpointPair | lib/cpp/mylib.h:51-63 | equal inputs add nothing; otherwise the pair is the truncated smaller, then the truncated larger value |
| Interval.ZeroLengthForDistinctArguments | lib/cpp/mylib.h:51-63 | distinct inputs can give endpoints of length 0 (0.2 and 0.7 give `[0, 0]`) |
| Interval.SortedPairsAppend | lib/cpp/mylib.h:51-63 | appending a sorted pair keeps every stored pair sorted |
| Interval.Inside | lib/cpp/mylib.h:67 | the acceptance test of `set_spoint`; it can hold only when `endpoints[0] < endpoints[1]` |
| Interval.Filter | lib/cpp/mylib.h:65-72 | the accepted points all lie strictly between the endpoints |
| Interval.FilterMembers | lib/cpp/mylib.h:80-88 | a point is accepted iff it is in the input and strictly inside |
| Interval.FilterAppend | lib/cpp/mylib.h:80-88 | filtering a concatenation filters each part in order |
| Interval.Line.constructor | lib/cpp/mylib.h:37 | `Line(v1, v2)` starts unsliced, with no slice points and the endpoint pair of `set_endpoints` |
| Interval.Line.SetEndpoints | lib/cpp/mylib.h:51-63 | appends the pair, so a second call leaves `endpoints[0]` and `endpoints[1]` unchanged |
| Interval.Line.SetSpoint | lib/cpp/mylib.h:65-72 | accepts only points strictly between the endpoints; each acceptance appends once, counts once and sets `sliced` |
| Interval.Line.SetSpoints | lib/cpp/mylib.h:80-88 | an empty vector changes nothing; otherwise the slice points grow by the order-preserving filter of the input, and the count by its length |
| Interval.Line.GetLength | lib/cpp/mylib.h:91 | `endpoints[1] − endpoints[0]`, which is non-negative |
| Interval.Domain.constructor | lib/cpp/mylib.h:104 | a domain has dimension 1 and one line built from the two values |
| Interval.Domain.SetEndpoint | lib/cpp/mylib.h:107-110 | delegates to the line only when the dimension is 1 |
| Diffusion.K | ftcs/ftcs.py:17 | `k·dx² = D·dt`, and `k > 0` for positive `D` and `dt` |
| Diffusion.Stable | ftcs/ftcs.py:21 | the guard `0 < k < 0.5` makes the centre weight `1 − 2k` of the stencil positive |
| Diffusion.Stencil | ftcs/ftcs.py:37 | a flat neighbourhood, or `k = 0`, leaves the cell unchanged |
| Diffusion.SweepInto | ftcs/ftcs.py:36-37 | the first sweep keeps the length and both boundary cells |
| Diffusion.SweepInPlace | ftcs/ftcs.py:36-38 | a later, in-place sweep keeps the length and both boundary cells |
| Diffusion.Evolve | ftcs/ftcs.py:35-38 | after any number of sweeps `f[0]` and `f[Nx−1]` are unchanged |
| Diffusion.DefaultsStable | ftcs/ftcs.py:5-21 | the script's constants give `k = 0.25`, which passes the guard |
| Diffusion.Initial | ftcs/ftcs.py:27-31 | `f[Nx−1] = 0`, every interior value is `0.5`, and `f[0] = 1` when `Nx ≥ 2` (for `Nx = 1`, `f[-1] = 0` overwrites it) |
| Diffusion.StencilWeights | ftcs/ftcs.py:37 | each update is `(1 − 2k)·f[i] + k·f[i−1] + k·f[i+1]` |
| Diffusion.StencilConvex | ftcs/ftcs.py:37 | for `0 ≤ k ≤ 0.5` an update stays between the bounds of its three inputs |
| Diffusion.SweepIntoCells | ftcs/ftcs.py:36-37 | the first sweep writes only `1..Nx−2`, and each new value uses the old `f` |
| Diffusion.SweepInPlaceCells | ftcs/ftcs.py:36-38 | later sweeps update in place, and each value uses the already updated left neighbour |
| Diffusion.EvolveWithin | ftcs/ftcs.py:35-38 | under the guard, all values stay within any bounds the initial state respects |
| Diffusion.RunWithinUnitInterval | ftcs/ftcs.py:27-38 | from the initial profile, every value stays in `[0, 1]` with `f[0] = 1` and `f[Nx−1] = 0` |
| Diffusion.Simulate | ftcs/ftcs.py:17-38 | exit status 1 when `dx = 0` (an uncaught division by zero), when `0 < k < 0.5` fails, or when `Nx = 0` (an uncaught index error); otherwise status 0 and the final array is `Nt` sweeps of the initial state |
| Diffusion.Sweep | ftcs/ftcs.py:36-37 | on the first time step each inner cell gets the stencil of the untouched `f`; on every later one, where `f` and `fn` are one array, the cells are updated in place from left to right |
| RungeKutta.Slope | mylib/inc/MetComp.h:934-940 | the weights sum to 1: a zero step, or an `f` that takes one value everywhere, gives the slope `f(t, y)` |
| RungeKutta.Rk4 | mylib/inc/MetComp.h:929-942 | `t` advances by exactly `h`, and `y` moves by `h` times the weighted slope of the four stages |
| RungeKutta.ConstantSlope | mylib/inc/MetComp.h:929-942 | for `f ≡ c` one step adds `h·c` |
| RungeKutta.ZeroSlope | mylib/inc/MetComp.h:929-942 | for `f ≡ 0` the step leaves `y` unchanged |
| RungeKutta.SimpsonRule | mylib/inc/MetComp.h:929-942 | when `f` depends on `t` only, the step is Simpson's rule |
| RungeKutta.LinearTaylor | mylib/inc/MetComp.h:929-942 | for `dy/dt = λy` the step multiplies `y` by the Taylor polynomial of `exp(λh)` to fourth order |
| SampledLine.LowerBound | mylib/inc/MetComp.h:519-521 | `std::lower_bound`: every element before the result is `< v`, and the element at it is `≥ v` |
| SampledLine.UpperBound | mylib/inc/MetComp.h:529-530 | `std::upper_bound`: every element before the result is `≤ v`, and the element at it is `> v` |
| SampledLine.GridLast | mylib/inc/MetComp.h:384-391 | the last grid point is exactly the upper end |
| SampledLine.GridWithin | mylib/inc/MetComp.h:546-553 | every later grid point lies in `(x0, last]` |
| SampledLine.Serving | mylib/inc/MetComp.h:547-551 | the function used for a point `x` is the one whose slice interval `(s[j], s[j+1]]` holds `x` |
| SampledLine.SampleAt | mylib/inc/MetComp.h:544-553 | point `i` of the rebuild lies at `s[0] + i·step` |
| SampledLine.Sample | mylib/inc/MetComp.h:540-553 | the rebuild produces exactly `n` points, and point `i` lies at `s[0] + i·step` on the new grid |
| SampledLine.SplicePoints | mylib/inc/MetComp.h:518-535 | on sorted slice points with `x0 < min <= max` and `min` inside the line, the spliced slice points (`min` and `max` in place of every point of `[min, max]`) are still sorted |
| SampledLine.SpliceFunctions | mylib/inc/MetComp.h:518-535 | one function per spliced interval, and the new function sits at the index of the interval that starts at `min` |
| SampledLine.SpliceShape | mylib/inc/MetComp.h:516-535 | the splice keeps the slice points sorted, keeps one function per interval, and keeps the first slice point |
| SampledLine.SpliceServesInside | mylib/inc/MetComp.h:516-535 | after the splice, every point in `(min, max]` is served by the new function |
| SampledLine.SpliceServesBelow | mylib/inc/MetComp.h:516-535 | points at or below `min` keep the function that served them |
| SampledLine.SpliceServesAbove | mylib/inc/MetComp.h:516-535 | points above `max` keep the function that served them |
| SampledLine.Splice | mylib/inc/MetComp.h:516-535 | the insert / erase-until-upper-bound / insert sequence produces exactly the spliced slice points and functions, and well-formed slice points and functions stay well formed |
| SampledLine.Line.constructor | mylib/inc/MetComp.h:361-399 | equal ends leave the line empty; otherwise slice points `[min, max]`, one function, the cursor at 0, and `n` points with `y = f(x)` |
| SampledLine.Line.Copy | mylib/inc/MetComp.h:759 | the copy has every field of the original and is valid when the original is |
| SampledLine.Line.X | mylib/inc/MetComp.h:404 | `x()` reads the cursor point, which lies within the line |
| SampledLine.Line.Y | mylib/inc/MetComp.h:405 | `y()` reads the cursor point |
| SampledLine.Line.At | mylib/inc/MetComp.h:456-469 | `operator[](i)` returns point `i`, or the cursor point when `i ≥ n` |
| SampledLine.Line.XAt | mylib/inc/MetComp.h:408-421 | `x(i)` is grid point `i`, or the cursor's `x` when `i ≥ n` |
| SampledLine.Line.YAt | mylib/inc/MetComp.h:422-435 | `y(i)` is the value at `i`, or the cursor's `y` when `i ≥ n` |
| SampledLine.Line.Next | mylib/inc/MetComp.h:438-444 | `++` moves the cursor forward except at the last point |
| SampledLine.Line.Prev | mylib/inc/MetComp.h:447-453 | `--` moves the cursor back except at the first point |
| SampledLine.Line.Jump | mylib/inc/MetComp.h:472-483 | `operator()(i)` moves the cursor to `i` only when `i < n` |
| SampledLine.Line.SetFunction | mylib/inc/MetComp.h:488-500 | slice points become `[first x, last x]`, the functions `[f]`, every `y` becomes `f(x)`, and the `x` values and the count are unchanged |
| SampledLine.Line.Resample | mylib/inc/MetComp.h:540-553 | the points are rebuilt as `Sample` of the slice points and functions |
| SampledLine.Line.SetFunctionOn | mylib/inc/MetComp.h:503-554 | the slice points and functions become the splice, and the same number of points is rebuilt from the first slice point |
| SampledLine.Line.Reslice | mylib/inc/MetComp.h:516-535 | the slice points and functions become the splice and stay well formed; the samples and the cursor wait for the rebuild |
| SampledLine.Line.SetNPoints | mylib/inc/MetComp.h:635-667 | `n < 2` changes nothing; otherwise the line is resampled with `n` points |
| SampledLine.Line.SetY | mylib/inc/MetComp.h:707 | only the `y` of point `i` changes |
| SampledLine.Line.Start | mylib/inc/MetComp.h:694 | the first `x` is the first slice point |
| SampledLine.Line.End | mylib/inc/MetComp.h:696 | the last `x` is the last slice point |
| SampledLine.Line.Length | mylib/inc/MetComp.h:699-701 | the length is `end − start` and is positive |
| SampledLine.Line.Step | mylib/inc/MetComp.h:704 | the step is positive, and `n − 1` steps from the start reach the end |
| SampledLine.Line.NPoints | mylib/inc/MetComp.h:710 | the number of points, at least 2 |
| SampledLine.Line.NFunc | mylib/inc/MetComp.h:713 | one function per slice interval |
| Quantum.Kappa | mylib/inc/MetComp.h:801 | `κ·dx² = dt / 2`, and `κ > 0` for `dt > 0` |
| Quantum.EulerPoint | mylib/inc/MetComp.h:806-808 | the new value keeps the flag invariant, and a zero neighbourhood gives zero |
| Quantum.EulerSweep | mylib/inc/MetComp.h:805-810 | the sweep keeps the length, every `x`, and the first and last points |
| Quantum.EulerPointParts | mylib/inc/MetComp.h:806-808 | the real and imaginary parts of `(1 − i(2κ + dt·V))·ψ[i] + iκ·(ψ[i−1] + ψ[i+1])` |
| Quantum.EulerSweepCells | mylib/inc/MetComp.h:805-810 | the sweep keeps the length, the `x` values and both endpoints; each interior value uses the new left neighbour and the old right one |
| Quantum.ZeroStaysZero | mylib/inc/MetComp.h:805-810 | a zero wave function stays zero |
| Quantum.PotentialAt | mylib/inc/MetComp.h:806 | `_pot[i].second`, with the cursor fallback past the end of the potential |
| Quantum.QuantumSys.constructor | mylib/inc/MetComp.h:759 | the system holds fresh copies of every field of the potential and of the initial wave function, valid when both lines are |
| Quantum.QuantumSys.Euler | mylib/inc/MetComp.h:795-811 | `ψ` becomes the ascending in-place sweep with `κ = dt / (2·dx²)`; the grid, slice points, functions and cursor are unchanged |
| Interaction.NewParticle | MolDyn/lib/moldyn.h:26-27 | `Particle(dim, mass)` has three zero vectors of length `dim` |
| Interaction.SquaredDistance | MolDyn/lib/moldyn.h:169-171 | the loop `d2 += pow(x1[i] − x2[i], 2)` never gives a negative value |
| Interaction.LennardJonesPotential | MolDyn/lib/moldyn.h:172-175 | the potential is 0 at the distance where `d²³ = σ⁶` |
| Interaction.LennardJonesFactor | MolDyn/lib/moldyn.h:199-201 | for `ε > 0` the factor is positive (repulsion) closer than `d²³ = 2σ⁶` and, for `σ⁶ > 0`, negative (attraction) beyond it |
| Interaction.PotentialEnergy | MolDyn/lib/moldyn.h:159-177 | two coincident particles have potential 0, and so does an ideal gas (its `potential` returns 0 at line 42) |
| Interaction.Force | MolDyn/lib/moldyn.h:180-206 | one component per dimension; all are 0 for an ideal gas (lines 44-46), and each is 0 on an axis where the two positions agree |
| Interaction.SquaredDistanceNonNegative | MolDyn/lib/moldyn.h:170-171 | `d²` is non-negative, and 0 between a point and itself |
| Interaction.SquaredDistanceSymmetric | MolDyn/lib/moldyn.h:170-171 | `d²` does not depend on the order of the two particles |
| Interaction.DefaultLennardJones | MolDyn/lib/moldyn.h:65 | the default model has `ε = 10⁻⁵` and `σ⁶ = (10⁻⁵)⁶` |
| Interaction.MakeLennardJones | MolDyn/lib/moldyn.h:67-68 | the model stores `ε` and `σ⁶` |
| Interaction.SetEpsilon | MolDyn/lib/moldyn.h:155 | `set_epsilon` changes only `ε` |
| Interaction.SetSigma | MolDyn/lib/moldyn.h:156 | `set_sigma` changes only `σ⁶`, to the sixth power of its argument |
| Interaction.IdealGasInert | MolDyn/lib/moldyn.h:42-46 | the ideal gas has zero potential and a zero force vector |
| Interaction.ForceAlongSeparation | MolDyn/lib/moldyn.h:195-205 | every force is `k(d²)·(x1 − x2)` |
| Interaction.ForceAntisymmetric | MolDyn/lib/moldyn.h:180-206 | `force(p, q) = −force(q, p)` componentwise |
| Interaction.PotentialSymmetric | MolDyn/lib/moldyn.h:159-177 | the pair potential is symmetric in its two particles |
| Interaction.ForceVanishesAtMinimum | MolDyn/lib/moldyn.h:200-204 | the Lennard-Jones force is zero when `d⁶ = 2σ⁶` |
| Interaction.PotentialWellDepth | MolDyn/lib/moldyn.h:173-175 | the Lennard-Jones potential there is `−ε` |
| Boundary.Reflect | MolDyn/lib/moldyn.h:350-358 | walls: in-range coordinates are untouched; `x < 0` gives `(−x, −v)`; `x > size` (with `x ≥ 0`) gives `(2·size − x, −v)` |
| Boundary.Wrap | MolDyn/lib/moldyn.h:360-365 | the periodic rule leaves in-range coordinates untouched |
| Boundary.Apply | MolDyn/lib/moldyn.h:348-366 | the periodic rule never touches the velocity; both rules leave in-box coordinates alone |
| Boundary.WallsReturnToBox | MolDyn/lib/moldyn.h:350-358 | a coordinate in `[−size, 2·size]` comes back into `[0, size]` |
| Boundary.WallsKeepSpeed | MolDyn/lib/moldyn.h:350-358 | the walls only negate the velocity component, and do so exactly when the coordinate left the box |
| Boundary.WallsSettle | MolDyn/lib/moldyn.h:350-358 | applying the walls again to their result changes nothing |
| Boundary.WrapIsMirrorAtSize | MolDyn/lib/moldyn.h:360-365 | both out-of-range branches compute `size − x` |
| Boundary.WrapLeavesBox | MolDyn/lib/moldyn.h:360-365 | for a positive size, a coordinate that left the box ends up outside it on the other side |
| PairSums.HeadStart | MolDyn/lib/moldyn.h:337-338 | before the pair loop, every accumulator is zero |
| PairSums.InnerStep | MolDyn/lib/moldyn.h:373-377 | one pair `(j, k)` adds `force/mass` to `j`, subtracts it from `k`, and changes nothing else |
| PairSums.InnerEnd | MolDyn/lib/moldyn.h:372-379 | the inner loop of `j` completes the state the outer loop expects for `j + 1` |
| PairSums.HeadFinal | MolDyn/lib/moldyn.h:371-384 | by the time particle `j` is kicked, its accumulator holds its final value |
| PairSums.PullAntisymmetric | MolDyn/lib/moldyn.h:373-375 | the pull of `r` on `p` is minus the pull of `p` on `r` |
| PairSums.Accel | MolDyn/lib/moldyn.h:371-384 | each final accumulator is `Net`, the sum over `k ≠ j` of `force(p_j, p_k) / mass` |
| PairSums.Net | MolDyn/lib/moldyn.h:371-384 | the net pull on a particle is 0 for an ideal gas |
| PairSums.AccelSumsToZero | MolDyn/lib/moldyn.h:371-379 | on every axis the accumulators sum to zero |
| Newton.ParticleMass | MolDyn/lib/moldyn.h:217 | `mass = M_at / (N_A·12)`, non-zero for non-zero `M_at` and positive for positive `M_at` |
| Newton.Drift | MolDyn/lib/moldyn.h:346-347 | `x + v·dt + ½·a·dt²` is uniform motion when `a = 0`, and no move when `dt = 0` |
| Newton.Kick | MolDyn/lib/moldyn.h:381 | `v + ½·(a + a_next)·dt` keeps `v` when the accelerations cancel or `dt = 0` |
| Newton.KineticEnergy | MolDyn/lib/moldyn.h:307-315 | `½·mass·Σ v²` is non-negative for a positive mass |
| Newton.PairPotential | MolDyn/lib/moldyn.h:317-325 | an ideal gas has no potential energy |
| Newton.DriftParticle | MolDyn/lib/moldyn.h:346-366 | each coordinate becomes the boundary rule applied to `x + v·dt + ½·a·dt²`, with the old acceleration; the acceleration is kept |
| Newton.KineticNonNegative | MolDyn/lib/moldyn.h:307-315 | for a positive mass the kinetic energy is non-negative, and zero exactly when every particle is at rest |
| Newton.PairPotentialOfTwo | MolDyn/lib/moldyn.h:317-325 | for two particles `potential()` is twice their pair potential |
| Newton.IdealGasStraightLine | MolDyn/lib/moldyn.h:330-385 | an ideal-gas particle with no acceleration that stays inside the box moves by `v·dt` and keeps its velocity |
| Newton.KickSum | MolDyn/lib/moldyn.h:380-383 | summed over the particles, the kicks add `½·(Σa + Σa_next)·dt` |
| Newton.KickKeepsMomentum | MolDyn/lib/moldyn.h:380-383 | when old and new accelerations each sum to zero, the sum of every velocity component is conserved |
| Newton.NewtonSys.constructor | MolDyn/lib/moldyn.h:213-278 | the particles start at the given positions and velocities with the mass `M_at/(N_A·12)`, the accelerations of the pair loop, time 0, and the initial energies recorded |
| Newton.NewtonSys.InitialAccelerations | MolDyn/lib/moldyn.h:264-273 | the constructor's pair loop leaves each acceleration equal to the net pair force over the mass |
| Newton.NewtonSys.InitialPair | MolDyn/lib/moldyn.h:265-272 | one pass of the inner loop adds the pair `(j, k)` to the partial sums of every particle and leaves positions, velocities and masses alone |
| Newton.NewtonSys.Size | MolDyn/lib/moldyn.h:286-296 | `size(d)` is the box side `d`, or 0 when `d ≥ dim` |
| Newton.NewtonSys.Kinetic | MolDyn/lib/moldyn.h:307-315 | `kinetic()` is `½·mass·Σ_j Σ_i v_j[i]²` |
| Newton.NewtonSys.Potential | MolDyn/lib/moldyn.h:317-325 | `potential()` is `Σ_{j<k} 2·potential(p_j, p_k)` |
| Newton.NewtonSys.MoveParticles | MolDyn/lib/moldyn.h:344-368 | the position loop drifts every coordinate and applies the boundary rule |
| Newton.NewtonSys.MoveParticle | MolDyn/lib/moldyn.h:345-367 | particle `j` drifts and meets the boundary rule on every axis, and no other particle changes |
| Newton.NewtonSys.Accelerate | MolDyn/lib/moldyn.h:371-384 | every particle is kicked with its complete net acceleration at the new positions, and on every axis the new accelerations sum to zero |
| Newton.NewtonSys.AccelerateOne | MolDyn/lib/moldyn.h:372-383 | after one outer pass the partial sums hold every pair `(j, k)`, particle `j` is kicked with its complete acceleration, and no other particle changes |
| Newton.NewtonSys.Vverlet | MolDyn/lib/moldyn.h:330-385 | `_time` advances by `dt`; size, mass, bound, model, count and shapes are unchanged; each particle drifts, then is kicked with `½(a_old + a_next)·dt`, and `a = a_next`, the net force over the mass; the new accelerations sum to zero on every axis |

## Left out

- Randomness: the constructor of `NewtonSys` draws uniform positions and
  normal velocities. These, and the box sides (computed with a fractional
  power), are inputs of `Newton.NewtonSys.constructor`. `T_init` and `rho`
  only feed those computations and are not modelled.
- Newton.NewtonSys.constructor: takes the interaction model as an input. The
  source default-constructs it.
- Floating point: every `double` is a real, so no claim is made about rounding
  or energy drift.
- Division by zero:
  - Interaction: at `d² = 0` the source produces an infinity or NaN; the
    Lennard-Jones potential and force are modelled as 0 there.
  - Newton.NewtonSys.constructor: requires `M_at ≠ 0`, so that the mass can
    be divided by.
  - ComplexNumbers.DivReal and ComplexNumbers.Div: a zero divisor gives
    `NonFinite`, which stands for the infinite or NaN parts without
    representing them.
  - Uncertainty.Ratio: `r = u / v` is modelled as 0 when `v = 0`.
- Output and plotting:
  - the gnuplot and debug printers of `NewtonSys` and `QuantumSys`;
  - `Line::print_points`, `tostr` and matplotlib;
  - the error messages of the `try`/`catch` blocks. Only the error paths
    themselves are modelled.
- Square roots and transcendental functions:
  - `math::pnorm` is a `root` parameter of the `Real` operators;
  - `complex` `abs`, `phi`, the phase constructors, and `exp`, `log`, `sin`,
    `cos` and `tan` are not modelled;
  - `QuantumSys::normalize` and `QuantumSys::integral` are not modelled: the
    first takes a square root, and the second needs `abs2`, which no source
    file defines.
- `QuantumSys::CrakNicolson` reads an uninitialised index and writes past the
  end of its buffer. It is not modelled.
- The vector `rk4` adds a vector into a scalar, so only the scalar
  specialisation is modelled.
- Parts of `Line<T>` that cannot run as written are not modelled:
  - the endpoint-only constructors (`pushback`);
  - `set_endpoints`, which dereferences an iterator that may be `end()`;
  - `f(x)`, whose guards make the search unreachable;
  - `set_zero`, which is `set_function` with the zero function.
- SampledLine.Line.SetFunctionOn: requires `s_points[0] < min(v1, v2) ≤
  s_points.back()`.
  - At or below the first slice point the source reads `_functions[pos − 1]`
    with `pos = 0`.
  - Beyond the last slice point `pos` is the size of `_s_points`, so
    `_functions.begin() + pos` at MetComp.h:525 is already one past `end()`
    when the new function is inserted.
- SampledLine.Line.constructor: requires `n ≥ 2`. With `n = 0` the step
  divides by `size_t(−1)`, and with `n = 1` it divides by zero.
- SampledLine.Line.SetNPoints: the source leaves `_ptr` pointing into the
  cleared vector. The model clamps the cursor to the last point.
- SampledLine.Line.SetY: requires `i < n`; the source does not check the index.
- Quantum.QuantumSys.constructor: the copy constructors of `Line` are modelled
  by `SampledLine.Line.Copy`, which copies every field, so the two systems
  share no state.
- The variadic `Line` constructors and variadic `set_spoints` of the interval
  class build a discarded temporary and index an empty vector. They are not
  modelled.
- Interval.Line.SetSpoint: requires that endpoints were stored. The source
  indexes an empty vector after `Line(v, v)`.
- Interval.Line.SetSpoints: a non-empty vector requires that endpoints were
  stored, for the same reason; an empty vector is modelled on every line.
- Interval.Line.GetLength: requires that endpoints were stored. After
  `Line(v, v)` the source reads `endpoints[0]` and `endpoints[1]` of an
  empty vector.
- Interval.Trunc: the result is an unbounded integer. The model assumes
  every endpoint fits in a C++ `int`: converting a `double` outside that
  range is undefined in the source, and the model keeps the mathematical
  truncation (`set_endpoints(3e9, 4e9)` stores 3000000000).
- Interval.Line.GetLength: `endpoints[1] − endpoints[0]` is computed in
  `int` (lib/cpp/mylib.h:91). The model assumes the difference fits. For
  `set_endpoints(-2e9, 2e9)` it overflows, which is undefined in the source
  and wraps to a negative value on usual targets. The model returns the
  mathematical 4000000000, so `len ≥ 0` holds only under that assumption.
- Newton.NewtonSys.Size: requires `dim ≥ 1`. For `dim = 0` the guard
  `d > _dim − 1` compares with the `size_t` value `−1`, never throws, and
  reads `_size[d]` out of range.
- Drivers with infinite loops or console input (`main.cpp`, `atom.cpp`,
  `pendulum.cpp`), the non-compiling C sources, and the declaration-only
  headers are not part of this model.
- Diffusion.Simulate: the step counts `Nx` and `Nt` are parameters, not the
  script's `1000` and `10000`. `DefaultsStable` checks the script's own
  constants.
- Newton.NewtonSys.Vverlet: the periodic rule is kept as written. Its
  velocity component is unchanged, and the position is not wrapped.
