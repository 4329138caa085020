# Radio-quiet region width and lunar density profiles, in Dafny

This project models the exact logic in lunar-RFI. That repository estimates how wide the radio-quiet region on the far side of the Moon is, as seen by a receiver at height `h` above the surface, for a frequency `nu` and an intensity threshold `dB`. The model covers two parts.

- **The width estimator** (`calc_width/calc_width.py`), in module `QuietRegion`.
  - `GeomWidth` is the diffraction-free width. It solves the quadratic `A x^2 + B x + C = 0`, built from the Moon and Earth radii and their distance, for the point where the grazing line meets the circle of radius `r_moon + h`. It selects a root and returns twice the angle of that point, in degrees.
  - `WidthPowerLaw` subtracts the diffraction term `a * nu^b` from that width.
  - `CalcWidth` evaluates the power law at the interpolated coefficients `a(h, dB)`, `b(h, dB)`. It also evaluates it at `(a - 7, b - 0.01)` and `(a + 7, b + 0.01)` to get the plus and minus uncertainties. Then it clips a negative best fit.
- **The stepped density profile** of the simulated Moon (`moon_step` in `FDTD_simulations/fdtd_10_kHz.py`), in module `MoonMedium`.
  - The depth of a position is `1737 - sqrt(x^2 + y^2)`.
  - The density is that of the first of seven layers whose depth bound exceeds that depth. The source finds it by boolean-mask indexing, `rho_steps[z < depth_steps][0]`, and the model does the same with `Below`, `Compress` and `First`.
  - `moon_constant` gives the constant density 3.34 g/cc.

The geometry is stated for any `Bodies(moonRadius, earthRadius, distance)` in which the Earth is larger than the Moon and the distance is positive (`QuietRegion.ValidBodies`). The source fixes these to `MoonEarth`, that is 1737.1 km, 6371 km and 384400 km (lines 20-22), and `QuietRegion.MoonEarthValid` shows that `MoonEarth` is valid.

Numbers are Dafny `real`s. The numpy routines `sqrt`, `arctan`, real power `**` and `pi` do not have bodies here. They are fields of a `RealOps` value, and `RealMath.Lawful` lists the only facts the proofs use about them:

- `sqrt(x) >= 0` and `sqrt(x) * sqrt(x) == x` for `x >= 0`;
- `pi > 0`;
- `0 <= arctan(t)` and `2 * arctan(t) < pi` for `t >= 0`.

A NaN that numpy would produce is modelled as `None` of an `Option`. For example, `np.sqrt` of a negative discriminant gives a NaN, and that NaN makes every later value NaN, so the whole estimate is `None` (`RealMath.NpSqrt`). The coefficient interpolants are the two functions of a `CoefficientGrid` value, passed in as the `grid` parameter. In the source, `calc_width` is not pure: line 63 calls `load_interp_2d()`, which opens and unpickles `2d_interp_h_vs_dB.pkl` on every call (calc_width/load_interp_2d.py:21-23). The model replaces that load with the `grid` parameter, so every function here is pure.

In the source, the second square root (line 33) and the division by `x` (line 34) could in principle give a NaN or a division by zero. The model proves that neither happens: the argument of that square root is the perfect square `(slope*x - r_moon)^2`, and the selected root `x` is positive. `GeomWidth` therefore calls `sqrt` there directly.

The clipping step (lines 69-71) reads oddly. Line 70 sets `best_fit = 0`, and line 71 then computes `max(0, best_fit + plus_uncert)`. At that point the `best_fit +` adds zero, so the code returns `max(0, plus_uncert)`. Writing the sum only makes sense if it was meant to use the best fit from before clipping, which makes the upper end of the interval the plus-shifted width clamped at zero. `CalcWidth` follows the code as written. `CalcWidthIntended` uses the pre-clip sum. The difference is recorded under "## Findings".

Lines 64-72 keep only the best fit non-negative: nothing in them clamps the two uncertainties when the best fit is non-negative. `QuietRegion.CalcWidthNonNegative` gives conditions under which the uncertainties are non-negative as well: `a(h, dB) >= 0`, and `nu^b` growing with the exponent near `b`. `QuietRegion.CalcWidthNegativeUncertainty` shows a case where these conditions fail and calc_width returns a negative plus-uncertainty.

## Model

| member | source | states |
|---|---|---|
| `RealMath.NpSqrt` | calc_width/calc_width.py:27-28 | np.sqrt is a NaN exactly for a negative argument; otherwise it is a non-negative number whose square is the argument |
| `RealMath.SqrtOfSquare` | calc_width/calc_width.py:33 | the square root of `t*t` is `abs(t)`, so the second square root of geom_width is `abs(slope*x - r_moon)` |
| `RealMath.Max` | calc_width/calc_width.py:71 | Python `max` of two numbers: at least both, and equal to one of them |
| `QuietRegion.MoonEarthValid` | calc_width/calc_width.py:20-22 | the source's radii 1737.1 and 6371 km and distance 384400 km satisfy `ValidBodies` |
| `QuietRegion.DiscriminantNonNegative` | calc_width/calc_width.py:23-28 | for `h >= 0`: `A = 1 + slope^2 > 0`, `C = r_moon^2 - (r_moon+h)^2 <= 0`, so `B^2 - 4AC >= 0` |
| `QuietRegion.QuadraticFormula` | calc_width/calc_width.py:24-27 | given a square root of `B^2 - 4AC`, the "+" root of the quadratic formula solves `A x^2 + B x + C = 0` |
| `QuietRegion.RootsOrdered` | calc_width/calc_width.py:27-28 | for `A > 0`, `B < 0` and a root `s >= 0`, `(-B - s)/(2A) <= (-B + s)/(2A)` and the "+" root is positive |
| `QuietRegion.RootSelection` | calc_width/calc_width.py:27-32 | when the discriminant has a root, `root1 >= root2` and `root1 > 0` (because `B < 0`), so `x = root1` is selected, and it solves the quadratic |
| `QuietRegion.LimbIdentity` | calc_width/calc_width.py:24-33 | a root `x` of `(1 + m^2) x^2 - 2 m r x + r^2 - (r+h)^2` makes `(r+h)^2 - x^2` equal to `(m x - r)^2` |
| `QuietRegion.SquareUnderRoot` | calc_width/calc_width.py:24-33 | at any root `x` of the quadratic, `(r_moon+h)^2 - x^2 == (slope*x - r_moon)^2`, a perfect square |
| `QuietRegion.GrazingPoint` | calc_width/calc_width.py:27-33 | for a root `s` of the discriminant, `root1 > 0` is selected and the second square root equals `abs(slope*root1 - r_moon)` |
| `QuietRegion.ConeWidth` | calc_width/calc_width.py:34-35 | `2*arctan(y/x)*(180/pi)` for `x > 0 <= y` is an angle in `[0, 180)` degrees |
| `QuietRegion.GeomWidth` | calc_width/calc_width.py:14-35 | geom_width is a number for every height `h >= 0`, and whenever it is a number it is a width in `[0, 180)` degrees |
| `QuietRegion.GeomWidthNaN` | calc_width/calc_width.py:23-28 | geom_width is a NaN exactly when `B^2 - 4AC < 0` |
| `QuietRegion.GeomWidthAtGrazingPoint` | calc_width/calc_width.py:27-35 | when defined, the width is the cone width through `(x, abs(slope*x - r_moon))`, with `x = root1 > 0` |
| `QuietRegion.WidthPowerLaw` | calc_width/calc_width.py:37-48 | the power-law width is a number for every height `h >= 0` |
| `QuietRegion.WidthPowerLawOffset` | calc_width/calc_width.py:48 | the power-law width is NaN exactly when the geometric width is, and otherwise adding `a * nu^b` to it gives the geometric width |
| `QuietRegion.WidthPowerLawZeroCoefficient` | calc_width/calc_width.py:48 | with `a == 0` the power-law width equals geom_width exactly, at any `nu` and `b` |
| `QuietRegion.WidthPowerLawBelowGeometric` | calc_width/calc_width.py:48 | when `a >= 0` and `nu^b >= 0`, the power-law width never exceeds the geometric width |
| `QuietRegion.Unclipped` | calc_width/calc_width.py:61-68 | the unclipped triple is a number for every `h >= 0` and every `dB`; the range check at lines 61-62 is commented out and not applied |
| `QuietRegion.UnclippedBounds` | calc_width/calc_width.py:64-68 | the unclipped triple is NaN exactly when geom_width is; otherwise `best_fit == W(a, b)`, `best_fit + plus == W(a-7, b-0.01)` and `best_fit - minus == W(a+7, b+0.01)`, where `a, b` are the interpolants at `(h, dB)` |
| `QuietRegion.Clip` | calc_width/calc_width.py:69-71 | a best fit `>= 0` leaves the triple unchanged; a negative one gives `(0, max(0, plus), 0)`; the returned best fit is always `>= 0` |
| `QuietRegion.CalcWidth` | calc_width/calc_width.py:50-72 | calc_width is a number for every `h >= 0` and every `dB`, and its best fit is never negative |
| `QuietRegion.CalcWidthClipping` | calc_width/calc_width.py:64-72 | calc_width is NaN exactly when geom_width is; otherwise it returns the unclipped triple when its best fit is `>= 0` and `(0, max(0, plus), 0)` when it is negative |
| `QuietRegion.CalcWidthNonNegative` | calc_width/calc_width.py:64-72 | for `h >= 0`, `a(h, dB) >= 0` and `0 <= nu^(b-0.01) <= nu^b <= nu^(b+0.01)`, the best fit and both uncertainties are all `>= 0` |
| `QuietRegion.CalcWidthNegativeUncertainty` | calc_width/calc_width.py:64-72 | with `a(h, dB) = -100`, `b(h, dB) = 0`, `nu^0 = 1` and `nu^-0.01 = 0.9` at `h = 0`, calc_width returns a non-negative best fit with a negative plus-uncertainty |
| `QuietRegion.ClipUpperEndExceedsShiftedWidth` | calc_width/calc_width.py:69-71 | as written, a negative best fit with a positive plus gives an upper end `best + plus` above `max(0, W(a-7, b-0.01))` |
| `QuietRegion.ClipCounterexample` | calc_width/calc_width.py:69-71 | best `-5`, plus `3`: the code reports `(0, 3, 0)`; the intended reading gives `(0, 0, 0)` |
| `QuietRegion.ClipIntended` | calc_width/calc_width.py:69-71 | intended clipping: the upper end after clipping is `max(0, best + plus)` with the best fit from before clipping |
| `QuietRegion.CalcWidthIntended` | calc_width/calc_width.py:63-72 | calc_width with the intended clipping is a number for every `h >= 0`, with a best fit that is never negative |
| `QuietRegion.CalcWidthIntendedUpperEnd` | calc_width/calc_width.py:64-72 | with the intended clipping, a clipped estimate is `(0, p, 0)` whose upper end `p` is the width at `(a-7, b-0.01)` clamped at zero |
| `RealMath.SqrtMonotone` | FDTD_simulations/fdtd_10_kHz.py:53-54 | the square root is monotone on non-negative reals |
| `MoonMedium.SquaredDistance` | FDTD_simulations/fdtd_10_kHz.py:53-54 | `x^2 + y^2` is non-negative, so the square root in the depth is defined |
| `MoonMedium.Depth` | FDTD_simulations/fdtd_10_kHz.py:53-54 | the depth `z` is at most 1737 km for every position, and `(1737 - z)^2 == x^2 + y^2` |
| `MoonMedium.DepthAntitone` | FDTD_simulations/fdtd_10_kHz.py:53-54 | a position farther from the centre is not deeper |
| `MoonMedium.Below` | FDTD_simulations/fdtd_10_kHz.py:57 | the mask `z < depth_steps` has one entry per bound, true exactly where `z` is below that bound |
| `MoonMedium.Compress` | FDTD_simulations/fdtd_10_kHz.py:57 | boolean-mask indexing returns at most as many values as it is given, all of them from the input |
| `MoonMedium.First` | FDTD_simulations/fdtd_10_kHz.py:57 | `[0]` yields the first element, or an IndexError (None) exactly for an empty array |
| `MoonMedium.FirstExceeding` | FDTD_simulations/fdtd_10_kHz.py:55-57 | the least index `i` with `z < bounds[i]`: every earlier bound is `<= z`, or `len(bounds)` when no bound exceeds `z` |
| `MoonMedium.CompressSkipsFalse` | FDTD_simulations/fdtd_10_kHz.py:57 | leading false mask entries contribute nothing to the masked array |
| `MoonMedium.CompressFirst` | FDTD_simulations/fdtd_10_kHz.py:57 | the first masked value is the value at the first true mask entry |
| `MoonMedium.CompressNone` | FDTD_simulations/fdtd_10_kHz.py:57 | an all-false mask selects nothing, so `[0]` fails |
| `MoonMedium.StepsSorted` | FDTD_simulations/fdtd_10_kHz.py:55-56 | `depth_steps` is strictly increasing and `rho_steps`, of the same length, is non-decreasing |
| `MoonMedium.StepDensity` | FDTD_simulations/fdtd_10_kHz.py:55-57 | a found density is always one of the seven `rho_steps` values |
| `MoonMedium.StepDensityFirstMatch` | FDTD_simulations/fdtd_10_kHz.py:55-57 | the lookup yields `rho_steps[i]` for the least `i` with `z < depth_steps[i]`, and it fails exactly when `z >= 10000000` |
| `MoonMedium.StepDensityAtLayer` | FDTD_simulations/fdtd_10_kHz.py:55-57 | any index meeting the first-match condition gives the looked-up density |
| `MoonMedium.StepDensityMonotone` | FDTD_simulations/fdtd_10_kHz.py:55-57 | the looked-up density is non-decreasing in the depth `z` |
| `MoonMedium.MoonStepDensity` | FDTD_simulations/fdtd_10_kHz.py:47-57 | moon_step always finds a layer, because `z <= 1737 < 10000000`, and its density is one of the `rho_steps` values |
| `MoonMedium.MoonStepDensityInward` | FDTD_simulations/fdtd_10_kHz.py:53-57 | a position no farther from the centre never has a lower stepped density |
| `MoonMedium.MoonConstantDensity` | FDTD_simulations/fdtd_10_kHz.py:20-27 | moon_constant's density is 3.34 g/cc; the depth computed at lines 25-26 is never used |
| `MoonMedium.MoonConstantDensityUniform` | FDTD_simulations/fdtd_10_kHz.py:20-27 | a corollary of `MoonConstantDensity`'s contract: any two positions get the same density, 3.34 |

## Findings

| source | as written | input that shows it | evidently intended | confidence | as-written member | corrected member |
|---|---|---|---|---|---|---|
| calc_width/calc_width.py:69-71 | line 70 sets `best_fit = 0` before line 71 computes `max(0, best_fit + plus_uncert)`, so the plus-uncertainty becomes `max(0, plus_uncert)` | `best_fit = -5`, `plus_uncert = 3`: returns `(0, 3, 0)`, although the plus-shifted width `best_fit + plus_uncert` is `-2` | after line 70, the `best_fit +` on line 71 always adds zero, so the sum is evidently meant with the pre-clip `best_fit`: `max(0, best_fit + plus_uncert)`, making the upper end the plus-shifted width clamped at zero, here `(0, 0, 0)` | medium; not executed | `QuietRegion.ClipUpperEndExceedsShiftedWidth` | `QuietRegion.CalcWidthIntendedUpperEnd` |

## Left out

- Floating-point rounding, infinities, and any NaN other than `np.sqrt` of a negative discriminant are not modelled. This includes a NaN from `nu**b` with a negative base, or from the interpolants. All arithmetic is exact real arithmetic.
- `sqrt`, `arctan`, real-exponent power and `pi` are not computed. Only the facts in `RealMath.Lawful` are assumed, so numeric values of widths and densities are not derived.
- `load_interp_2d` in calc_width/load_interp_2d.py reads a pickle file, and `interp2d` builds the interpolants. Both are not modelled. The interpolants are an arbitrary `CoefficientGrid` passed in, and `a_interp(h, dB)[0]` is a scalar. Extrapolation and grid-boundary behaviour are therefore not modelled.
- calc_width reloads the coefficient grid from `2d_interp_h_vs_dB.pkl` on every call (line 63, calc_width/load_interp_2d.py:21-23). That file read, and its failure when the file is missing or unreadable, are not modelled. The `grid` parameter stands in for the loaded interpolants.
- QuietRegion.CalcWidthNonNegative: the two uncertainties are non-negative only under its hypotheses, `a(h, dB) >= 0` and `nu^·` non-decreasing in the exponent over `[b - 0.01, b + 0.01]`. The code does not promise this in general, and `QuietRegion.CalcWidthNegativeUncertainty` gives a counterexample.
- calc_width/example_calc_width.py is a printing driver whose output depends on the external grid. It is not modelled.
- The Meep simulation setup and run (FDTD_simulations/fdtd_10_kHz.py:63-107) and FDTD_simulations/fdtd_10_kHz_no_moon.py are calls into a foreign library with no logic of their own. They are not modelled.
- The permittivity, loss-tangent and conductivity formulas (lines 28-30, 42-44, 58-60) are real-exponent powers of physical constants fed to Meep. They are not modelled.
- The `mp.Medium` objects these profiles return are built by a Meep constructor. They are not modelled. Neither is the frequency constant `freq = 1./30.` (line 64), which only feeds the conductivity.
- `moon_continuous` (lines 33-45), `rho = 1.39 z^0.056`, is a real-exponent power of the depth. It is not modelled.
- `moon_constant` computes a depth in cm (lines 25-26) and never uses it. The model keeps only the density.
- Only the `x` and `y` components of a Meep position are read, so `Position` has only those two.
- Monotonicity of `geom_width` in `h` is not proved. It would need monotonicity of `arctan`, which `Lawful` does not assume.
- The limit of `width_pwr_law` as `nu` grows without bound is not proved. It would need limits of the real power, which `Lawful` does not describe.
- Monotonicity of `width_pwr_law` in `nu` is not proved. It would need the real power to be monotone in its base, which `Lawful` does not assume, and its direction would depend on the sign of `a`.
- Calling the functions twice with the same inputs gives the same output. This is not stated as a lemma, because Dafny functions are deterministic by construction.
