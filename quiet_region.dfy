/**
 * The width of the radio-quiet region behind the Moon (calc_width/calc_width.py).
 *
 * `GeomWidth` is the diffraction-free width: the angle, seen from the Moon's
 * centre, of the cone cut off by the line through the limbs of the Earth and
 * the Moon, at the point where it reaches height `h`. `WidthPowerLaw` subtracts the
 * power-law diffraction term a*nu^b. `CalcWidth` evaluates that model at the
 * interpolated coefficients and at two shifted coefficient pairs, and clips
 * a negative best fit to zero.
 *
 * The geometry is stated for any radii and distance of the two bodies that
 * satisfy `ValidBodies`; the source fixes them to `MoonEarth`.
 * A NaN numpy would produce is `None`; every later step propagates it.
 */
module QuietRegion {
  import opened RealMath

  /** The radius of the Moon, the radius of the Earth and their distance, in km. */
  datatype Bodies = Bodies(moonRadius: real, earthRadius: real, distance: real)

  /** The constants geom_width uses. */
  const MoonEarth: Bodies := Bodies(1737.1, 6371.0, 384400.0)

  /** The shape of the problem: the Earth is larger than the Moon and at a positive distance. */
  predicate ValidBodies(g: Bodies) {
    0.0 < g.moonRadius < g.earthRadius && 0.0 < g.distance
  }

  /** The source's constants are valid bodies. */
  lemma MoonEarthValid()
    ensures ValidBodies(MoonEarth)
    ensures MoonEarth.moonRadius == 1737.1 && MoonEarth.earthRadius == 6371.0 && MoonEarth.distance == 384400.0
  {
  }

  // The coefficients of the quadratic A*x^2 + B*x + C = 0 for the grazing point.
  function Slope(g: Bodies): real
    requires ValidBodies(g)
  {
    (g.earthRadius - g.moonRadius) / g.distance
  }

  function QuadA(g: Bodies): real
    requires ValidBodies(g)
  {
    1.0 + Slope(g) * Slope(g)
  }

  function QuadB(g: Bodies): real
    requires ValidBodies(g)
  {
    -2.0 * (Slope(g) * g.moonRadius)
  }

  function QuadC(g: Bodies, h: real): real {
    g.moonRadius * g.moonRadius - (g.moonRadius + h) * (g.moonRadius + h)
  }

  function Discriminant(g: Bodies, h: real): real
    requires ValidBodies(g)
  {
    QuadB(g) * QuadB(g) - 4.0 * QuadA(g) * QuadC(g, h)
  }

  /** The two roots, given `s`, the square root of the discriminant. */
  function Root1(g: Bodies, s: real): real
    requires ValidBodies(g)
  {
    (-QuadB(g) + s) / (2.0 * QuadA(g))
  }

  function Root2(g: Bodies, s: real): real
    requires ValidBodies(g)
  {
    (-QuadB(g) - s) / (2.0 * QuadA(g))
  }

  /** The argument of the second square root, (r_moon + h)^2 - x^2. */
  function LimbSquare(g: Bodies, h: real, x: real): real {
    (g.moonRadius + h) * (g.moonRadius + h) - x * x
  }

  /** The root selection: the first root if it is positive, the second otherwise. */
  function SelectRoot(root1: real, root2: real): real {
    if root1 > 0.0 then root1 else root2
  }

  /** The quadratic formula's "+" root solves the quadratic. */
  lemma QuadraticFormula(a: real, b: real, c: real, s: real)
    requires a != 0.0 && s * s == b * b - 4.0 * a * c
    ensures var x := (-b + s) / (2.0 * a); a * x * x + b * x + c == 0.0
  {
    var x := (-b + s) / (2.0 * a);
    assert 2.0 * a * x == s - b;
    calc {
      4.0 * a * (a * x * x + b * x + c);
      (2.0 * a * x) * (2.0 * a * x) + 2.0 * b * (2.0 * a * x) + 4.0 * a * c;
      (s - b) * (s - b) + 2.0 * b * (s - b) + 4.0 * a * c;
      s * s - b * b + 4.0 * a * c;
      0.0;
    }
  }

  /** Heights at or above the surface: A > 0, C <= 0, hence a non-negative discriminant. */
  lemma DiscriminantNonNegative(g: Bodies, h: real)
    requires ValidBodies(g)
    ensures 0.0 < QuadA(g)
    ensures 0.0 <= h ==> QuadC(g, h) <= 0.0 && 0.0 <= Discriminant(g, h)
  {
    var r := g.moonRadius;
    if 0.0 <= h {
      assert r * r <= (r + h) * (r + h);
      assert 0.0 <= -4.0 * QuadA(g) * QuadC(g, h);
    }
  }

  /** With a > 0 and b < 0, the "+" root is positive and at least the "-" root. */
  lemma RootsOrdered(a: real, b: real, s: real)
    requires 0.0 < a && b < 0.0 && 0.0 <= s
    ensures (-b - s) / (2.0 * a) <= (-b + s) / (2.0 * a)
    ensures 0.0 < (-b + s) / (2.0 * a)
  {
    var d := 2.0 * a;
    var lo, hi := (-b - s) / d, (-b + s) / d;
    assert hi * d == -b + s && lo * d == -b - s;
    assert (hi - lo) * d == 2.0 * s;
  }

  /**
   * Whenever the discriminant has a square root `s`, the first root is
   * positive and at least the second, so it is the one selected, and it
   * solves the quadratic.
   */
  lemma RootSelection(g: Bodies, s: real, h: real)
    requires ValidBodies(g) && 0.0 <= s && s * s == Discriminant(g, h)
    ensures Root2(g, s) <= Root1(g, s)
    ensures 0.0 < Root1(g, s)
    ensures SelectRoot(Root1(g, s), Root2(g, s)) == Root1(g, s)
    ensures var x := Root1(g, s); QuadA(g) * x * x + QuadB(g) * x + QuadC(g, h) == 0.0
  {
    var m, r := Slope(g), g.moonRadius;
    assert 0.0 < m by {
      assert m * g.distance == g.earthRadius - r;
    }
    NonNegativeProduct(m, r);
    assert 0.0 < QuadA(g) && QuadB(g) < 0.0 by {
      assert m * r != 0.0;
    }
    RootsOrdered(QuadA(g), QuadB(g), s);
    QuadraticFormula(QuadA(g), QuadB(g), QuadC(g, h), s);
  }

  /** A root x of (1 + m^2) x^2 - 2 m r x + r^2 - (r + h)^2 makes (r + h)^2 - x^2 the square (m x - r)^2. */
  lemma LimbIdentity(r: real, m: real, h: real, x: real)
    requires (1.0 + m * m) * x * x + -2.0 * (m * r) * x + (r * r - (r + h) * (r + h)) == 0.0
    ensures (r + h) * (r + h) - x * x == (m * x - r) * (m * x - r)
  {
    calc {
      (m * x - r) * (m * x - r);
      m * m * x * x - 2.0 * (m * r) * x + r * r;
      (r + h) * (r + h) - x * x + ((1.0 + m * m) * x * x + -2.0 * (m * r) * x + (r * r - (r + h) * (r + h)));
    }
  }

  /**
   * At a root x of the quadratic, the argument of the second square root,
   * (r_moon + h)^2 - x^2, is the perfect square (slope*x - r_moon)^2.
   */
  lemma SquareUnderRoot(g: Bodies, x: real, h: real)
    requires ValidBodies(g)
    requires QuadA(g) * x * x + QuadB(g) * x + QuadC(g, h) == 0.0
    ensures LimbSquare(g, h, x) == (Slope(g) * x - g.moonRadius) * (Slope(g) * x - g.moonRadius)
  {
    LimbIdentity(g.moonRadius, Slope(g), h, x);
  }

  /**
   * For a square root `s` of the discriminant, the selected root is the
   * first one, it is positive, and the second square root of geom_width is
   * |slope*x - r_moon| at it.
   */
  lemma GrazingPoint(ops: RealOps, g: Bodies, h: real, s: real)
    requires Lawful(ops) && ValidBodies(g) && 0.0 <= s && s * s == Discriminant(g, h)
    ensures 0.0 < Root1(g, s)
    ensures SelectRoot(Root1(g, s), Root2(g, s)) == Root1(g, s)
    ensures ops.sqrt(LimbSquare(g, h, Root1(g, s))) == Abs(Slope(g) * Root1(g, s) - g.moonRadius)
  {
    RootSelection(g, s, h);
    SquareUnderRoot(g, Root1(g, s), h);
    SqrtOfSquare(ops, LimbSquare(g, h, Root1(g, s)), Slope(g) * Root1(g, s) - g.moonRadius);
  }

  /** 2*angle*(180/pi) lies in [0, 180) when 0 <= 2*angle < pi. */
  lemma DegreesBound(angle: real, pi: real)
    requires 0.0 < pi && 0.0 <= angle && 2.0 * angle < pi
    ensures 0.0 <= 2.0 * angle * (180.0 / pi) < 180.0
  {
    assert 2.0 * angle * (180.0 / pi) == 180.0 * (2.0 * angle / pi);
    assert 2.0 * angle / pi < 1.0;
  }

  /** The full width in degrees, 2*arctan(y/x)*(180/pi), of the cone through the point (x, y). */
  function ConeWidth(ops: RealOps, x: real, y: real): (w: real)
    requires Lawful(ops) && 0.0 < x && 0.0 <= y
    ensures 0.0 <= w < 180.0
  {
    var angle := ops.arctan(y / x);
    DegreesBound(angle, ops.pi);
    2.0 * angle * (180.0 / ops.pi)
  }

  /**
   * geom_width: the width in degrees of the quiet cone, ignoring diffraction.
   * At or above the surface it is always a number, and whenever it is a
   * number it is an angle in [0, 180). `GeomWidthNaN` gives the exact NaN
   * condition.
   */
  function GeomWidth(ops: RealOps, g: Bodies, h: real): (w: Option<real>)
    requires Lawful(ops) && ValidBodies(g)
    ensures 0.0 <= h ==> w.Some?
    ensures w.Some? ==> 0.0 <= w.value < 180.0
  {
    DiscriminantNonNegative(g, h);
    match NpSqrt(ops, Discriminant(g, h))
    case None => None
    case Some(s) =>
      GrazingPoint(ops, g, h, s);
      var x := SelectRoot(Root1(g, s), Root2(g, s));
      var y := ops.sqrt(LimbSquare(g, h, x));
      Some(ConeWidth(ops, x, y))
  }

  /** geom_width is a NaN exactly when the discriminant is negative. */
  lemma GeomWidthNaN(ops: RealOps, g: Bodies, h: real)
    requires Lawful(ops) && ValidBodies(g)
    ensures GeomWidth(ops, g, h).None? <==> Discriminant(g, h) < 0.0
  {
  }

  /** The first root of the quadratic, where the line through the Earth's limb touches height h. */
  function GrazingX(ops: RealOps, g: Bodies, h: real): real
    requires Lawful(ops) && ValidBodies(g)
  {
    Root1(g, ops.sqrt(Discriminant(g, h)))
  }

  /** The distance |slope*x - r_moon| of the grazing point from the axis. */
  function GrazingHeight(g: Bodies, x: real): real
    requires ValidBodies(g)
  {
    Abs(Slope(g) * x - g.moonRadius)
  }

  /**
   * The selected root is the first one, and the second square root in
   * geom_width is |slope*x - r_moon|: the width is that of the cone through
   * the point (x, |slope*x - r_moon|).
   */
  lemma GeomWidthAtGrazingPoint(ops: RealOps, g: Bodies, h: real)
    requires Lawful(ops) && ValidBodies(g) && 0.0 <= Discriminant(g, h)
    ensures 0.0 < GrazingX(ops, g, h)
    ensures GeomWidth(ops, g, h) == Some(ConeWidth(ops, GrazingX(ops, g, h), GrazingHeight(g, GrazingX(ops, g, h))))
  {
    var s := ops.sqrt(Discriminant(g, h));
    assert NpSqrt(ops, Discriminant(g, h)) == Some(s);
    GrazingPoint(ops, g, h, s);
    assert GrazingX(ops, g, h) == Root1(g, s);
    assert GeomWidth(ops, g, h) == Some(ConeWidth(ops, Root1(g, s), ops.sqrt(LimbSquare(g, h, Root1(g, s)))));
    assert GrazingHeight(g, Root1(g, s)) == ops.sqrt(LimbSquare(g, h, Root1(g, s)));
    assert GeomWidth(ops, g, h) == Some(ConeWidth(ops, GrazingX(ops, g, h), GrazingHeight(g, GrazingX(ops, g, h))));
  }

  /** width_pwr_law: the geometric width minus the diffraction term a*nu^b. */
  function WidthPowerLaw(ops: RealOps, g: Bodies, nu: real, h: real, a: real, b: real): (w: Option<real>)
    requires Lawful(ops) && ValidBodies(g)
    ensures 0.0 <= h ==> w.Some?
  {
    match GeomWidth(ops, g, h)
    case None => None
    case Some(geom) => Some(geom - a * ops.pow(nu, b))
  }

  /** The power law is a NaN exactly when the geometric width is, and otherwise lies a*nu^b below it. */
  lemma WidthPowerLawOffset(ops: RealOps, g: Bodies, nu: real, h: real, a: real, b: real)
    requires Lawful(ops) && ValidBodies(g)
    ensures WidthPowerLaw(ops, g, nu, h, a, b).Some? <==> GeomWidth(ops, g, h).Some?
    ensures WidthPowerLaw(ops, g, nu, h, a, b).Some? ==>
              WidthPowerLaw(ops, g, nu, h, a, b).value + a * ops.pow(nu, b) == GeomWidth(ops, g, h).value
  {
  }

  /** With a zero coefficient the power law is exactly the geometric width. */
  lemma WidthPowerLawZeroCoefficient(ops: RealOps, g: Bodies, nu: real, h: real, b: real)
    requires Lawful(ops) && ValidBodies(g)
    ensures WidthPowerLaw(ops, g, nu, h, 0.0, b) == GeomWidth(ops, g, h)
  {
  }

  /** The power law never exceeds the geometric width when the correction a*nu^b is non-negative. */
  lemma WidthPowerLawBelowGeometric(ops: RealOps, g: Bodies, nu: real, h: real, a: real, b: real)
    requires Lawful(ops) && ValidBodies(g) && 0.0 <= h
    requires 0.0 <= a && 0.0 <= ops.pow(nu, b)
    ensures WidthPowerLaw(ops, g, nu, h, a, b).value <= GeomWidth(ops, g, h).value
  {
    assert 0.0 <= a * ops.pow(nu, b);
  }

  /** The two interpolants a(h, dB) and b(h, dB) of the precomputed coefficient grid. */
  datatype CoefficientGrid = CoefficientGrid(aInterp: (real, real) -> real, bInterp: (real, real) -> real)

  /** A width in degrees with its plus and minus uncertainties. */
  datatype WidthEstimate = WidthEstimate(bestFit: real, plusUncert: real, minusUncert: real)

  // The fixed offsets applied to the coefficients to derive the uncertainties.
  const ShiftA: real := 7.0
  const ShiftB: real := 0.01

  /**
   * The triple of calc_width before clipping: the best fit at the
   * interpolated coefficients, and its distances to the widths at the
   * coefficients shifted down (plus) and up (minus). No range check is made
   * on `h` or `dB`.
   */
  function Unclipped(ops: RealOps, g: Bodies, grid: CoefficientGrid, nu: real, h: real, dB: real): (e: Option<WidthEstimate>)
    requires Lawful(ops) && ValidBodies(g)
    ensures 0.0 <= h ==> e.Some?
  {
    var a := grid.aInterp(h, dB);
    var b := grid.bInterp(h, dB);
    match WidthPowerLaw(ops, g, nu, h, a, b)
    case None => None
    case Some(bestFit) =>
      var plusUncert := WidthPowerLaw(ops, g, nu, h, a - ShiftA, b - ShiftB).value - bestFit;
      var minusUncert := bestFit - WidthPowerLaw(ops, g, nu, h, a + ShiftA, b + ShiftB).value;
      Some(WidthEstimate(bestFit, plusUncert, minusUncert))
  }

  /**
   * Before clipping, the triple is a NaN exactly when the geometric width is;
   * otherwise the best fit plus the plus-uncertainty is the width at
   * (a - 7, b - 0.01), and the best fit minus the minus-uncertainty is the
   * width at (a + 7, b + 0.01).
   */
  lemma UnclippedBounds(ops: RealOps, g: Bodies, grid: CoefficientGrid, nu: real, h: real, dB: real)
    requires Lawful(ops) && ValidBodies(g)
    ensures Unclipped(ops, g, grid, nu, h, dB).Some? <==> GeomWidth(ops, g, h).Some?
    ensures Unclipped(ops, g, grid, nu, h, dB).Some? ==>
              var a, b, e := grid.aInterp(h, dB), grid.bInterp(h, dB), Unclipped(ops, g, grid, nu, h, dB).value;
              && e.bestFit == WidthPowerLaw(ops, g, nu, h, a, b).value
              && e.bestFit + e.plusUncert == WidthPowerLaw(ops, g, nu, h, a - 7.0, b - 0.01).value
              && e.bestFit - e.minusUncert == WidthPowerLaw(ops, g, nu, h, a + 7.0, b + 0.01).value
  {
  }

  /**
   * The clipping of calc_width, as written: a negative best fit and the
   * minus-uncertainty become zero, and the plus-uncertainty becomes
   * max(0, best_fit + plus) read AFTER best_fit was zeroed, that is
   * max(0, plus). A non-negative best fit leaves the triple unchanged.
   */
  function Clip(e: WidthEstimate): (r: WidthEstimate)
    ensures 0.0 <= r.bestFit
    ensures 0.0 <= e.bestFit ==> r == e
    ensures e.bestFit < 0.0 ==> r == WidthEstimate(0.0, Max(0.0, e.plusUncert), 0.0)
  {
    if e.bestFit < 0.0 then
      var bestFit := 0.0;
      WidthEstimate(bestFit, Max(0.0, bestFit + e.plusUncert), 0.0)
    else
      e
  }

  /**
   * calc_width: the clipped estimate. For every height at or above the
   * surface and every threshold it is a number, and its best fit is never
   * negative.
   */
  function CalcWidth(ops: RealOps, g: Bodies, grid: CoefficientGrid, nu: real, h: real, dB: real): (r: Option<WidthEstimate>)
    requires Lawful(ops) && ValidBodies(g)
    ensures 0.0 <= h ==> r.Some?
    ensures r.Some? ==> 0.0 <= r.value.bestFit
  {
    match Unclipped(ops, g, grid, nu, h, dB)
    case None => None
    case Some(e) => Some(Clip(e))
  }

  /**
   * calc_width is a NaN exactly when the geometric width is; otherwise it
   * returns the unclipped triple when its best fit is non-negative and
   * (0, max(0, plus), 0) when it is negative.
   */
  lemma CalcWidthClipping(ops: RealOps, g: Bodies, grid: CoefficientGrid, nu: real, h: real, dB: real)
    requires Lawful(ops) && ValidBodies(g)
    ensures CalcWidth(ops, g, grid, nu, h, dB).Some? <==> GeomWidth(ops, g, h).Some?
    ensures CalcWidth(ops, g, grid, nu, h, dB).Some? ==>
              var e, r := Unclipped(ops, g, grid, nu, h, dB).value, CalcWidth(ops, g, grid, nu, h, dB).value;
              && (0.0 <= e.bestFit ==> r == e)
              && (e.bestFit < 0.0 ==> r == WidthEstimate(0.0, Max(0.0, e.plusUncert), 0.0))
  {
  }

  /**
   * The uncertainties are non-negative when a(h, dB) >= 0 and nu^b grows
   * with the exponent over [b - 0.01, b + 0.01] (as it does for nu >= 1):
   * then all three components of the estimate are non-negative. Without
   * these conditions calc_width can return a negative uncertainty.
   */
  lemma CalcWidthNonNegative(ops: RealOps, g: Bodies, grid: CoefficientGrid, nu: real, h: real, dB: real)
    requires Lawful(ops) && ValidBodies(g) && 0.0 <= h
    requires 0.0 <= grid.aInterp(h, dB)
    requires var b := grid.bInterp(h, dB);
             0.0 <= ops.pow(nu, b - 0.01) <= ops.pow(nu, b) <= ops.pow(nu, b + 0.01)
    ensures var r := CalcWidth(ops, g, grid, nu, h, dB).value;
            0.0 <= r.bestFit && 0.0 <= r.plusUncert && 0.0 <= r.minusUncert
  {
    var a, b := grid.aInterp(h, dB), grid.bInterp(h, dB);
    var lo, mid, hi := ops.pow(nu, b - 0.01), ops.pow(nu, b), ops.pow(nu, b + 0.01);
    var e := Unclipped(ops, g, grid, nu, h, dB).value;
    var geom := GeomWidth(ops, g, h).value;
    assert e.plusUncert == (geom - (a - ShiftA) * lo) - (geom - a * mid);
    assert e.minusUncert == (geom - a * mid) - (geom - (a + ShiftA) * hi);
    UncertaintiesNonNegative(geom, a, lo, mid, hi);
    assert CalcWidth(ops, g, grid, nu, h, dB) == Some(Clip(e));
  }

  /**
   * Without the conditions of `CalcWidthNonNegative` an uncertainty can be
   * negative: with a(h, dB) = -100, b(h, dB) = 0, nu^0 = 1 and
   * nu^-0.01 = 0.9, the best fit is geom_width + 100 >= 0, so nothing is
   * clipped, and the plus-uncertainty is 107 * 0.9 - 100 = -3.7.
   */
  lemma CalcWidthNegativeUncertainty(ops: RealOps, nu: real, dB: real)
    requires Lawful(ops) && ops.pow(nu, 0.0) == 1.0 && ops.pow(nu, -0.01) == 0.9
    ensures var grid := CoefficientGrid((h, d) => -100.0, (h, d) => 0.0);
            CalcWidth(ops, MoonEarth, grid, nu, 0.0, dB).Some?
            && 0.0 <= CalcWidth(ops, MoonEarth, grid, nu, 0.0, dB).value.bestFit
            && CalcWidth(ops, MoonEarth, grid, nu, 0.0, dB).value.plusUncert < 0.0
  {
    var grid := CoefficientGrid((h, d) => -100.0, (h, d) => 0.0);
    MoonEarthValid();
    UnclippedBounds(ops, MoonEarth, grid, nu, 0.0, dB);
    CalcWidthClipping(ops, MoonEarth, grid, nu, 0.0, dB);
    var geom := GeomWidth(ops, MoonEarth, 0.0).value;
    var e := Unclipped(ops, MoonEarth, grid, nu, 0.0, dB).value;
    WidthPowerLawOffset(ops, MoonEarth, nu, 0.0, -100.0, 0.0);
    WidthPowerLawOffset(ops, MoonEarth, nu, 0.0, -107.0, -0.01);
    assert e.bestFit == geom + 100.0;
    assert e.bestFit + e.plusUncert == geom + 107.0 * 0.9;
  }

  /** The two uncertainties of one estimate, as differences of shifted widths, are non-negative. */
  lemma UncertaintiesNonNegative(geom: real, a: real, lo: real, mid: real, hi: real)
    requires 0.0 <= a && 0.0 <= lo <= mid <= hi
    ensures 0.0 <= (geom - (a - ShiftA) * lo) - (geom - a * mid)
    ensures 0.0 <= (geom - a * mid) - (geom - (a + ShiftA) * hi)
  {
    NonNegativeProduct(a, mid - lo);
    NonNegativeProduct(a, hi - mid);
    assert (geom - (a - ShiftA) * lo) - (geom - a * mid) == a * (mid - lo) + ShiftA * lo;
    assert (geom - a * mid) - (geom - (a + ShiftA) * hi) == a * (hi - mid) + ShiftA * hi;
  }

  /** A product of two non-negative reals is non-negative. */
  lemma NonNegativeProduct(x: real, y: real)
    requires 0.0 <= x && 0.0 <= y
    ensures 0.0 <= x * y
  {
    if 0.0 < x {
      assert 0.0 <= x * y / x;
    }
  }

  /**
   * As written, clipping keeps the whole plus-uncertainty: whenever a
   * negative best fit has a positive plus-uncertainty, the reported upper
   * end best + plus exceeds the plus-shifted width clamped at zero.
   */
  lemma ClipUpperEndExceedsShiftedWidth(e: WidthEstimate)
    requires e.bestFit < 0.0 < e.plusUncert
    ensures Max(0.0, e.bestFit + e.plusUncert) < Clip(e).bestFit + Clip(e).plusUncert
  {
  }

  /** A concrete case: best -5, plus 3 is reported as +3 where the shifted width is -2. */
  lemma ClipCounterexample()
    ensures Clip(WidthEstimate(-5.0, 3.0, 1.0)) == WidthEstimate(0.0, 3.0, 0.0)
    ensures ClipIntended(WidthEstimate(-5.0, 3.0, 1.0)) == WidthEstimate(0.0, 0.0, 0.0)
  {
  }

  /**
   * The clipping with the evidently intended reading of calc_width: the new
   * plus-uncertainty is measured from the clamped zero to the clamped
   * plus-shifted width, max(0, best_fit + plus) with the pre-clamp best fit.
   */
  function ClipIntended(e: WidthEstimate): (r: WidthEstimate)
    ensures 0.0 <= r.bestFit
    ensures 0.0 <= e.bestFit ==> r == e
    ensures e.bestFit < 0.0 ==>
              && r.bestFit == 0.0 && r.minusUncert == 0.0 && 0.0 <= r.plusUncert
              && r.bestFit + r.plusUncert == Max(0.0, e.bestFit + e.plusUncert)
  {
    if e.bestFit < 0.0 then
      WidthEstimate(0.0, Max(0.0, e.bestFit + e.plusUncert), 0.0)
    else
      e
  }

  /** calc_width with the intended clipping. */
  function CalcWidthIntended(ops: RealOps, g: Bodies, grid: CoefficientGrid, nu: real, h: real, dB: real): (r: Option<WidthEstimate>)
    requires Lawful(ops) && ValidBodies(g)
    ensures 0.0 <= h ==> r.Some?
    ensures r.Some? ==> 0.0 <= r.value.bestFit
  {
    match Unclipped(ops, g, grid, nu, h, dB)
    case None => None
    case Some(e) => Some(ClipIntended(e))
  }

  /**
   * With the intended clipping, when the best fit is clipped, the upper end
   * of the reported interval is the width at the shifted coefficients
   * (a - 7, b - 0.01), clamped at zero.
   */
  lemma CalcWidthIntendedUpperEnd(ops: RealOps, g: Bodies, grid: CoefficientGrid, nu: real, h: real, dB: real)
    requires Lawful(ops) && ValidBodies(g) && 0.0 <= h
    requires WidthPowerLaw(ops, g, nu, h, grid.aInterp(h, dB), grid.bInterp(h, dB)).value < 0.0
    ensures var a, b, r := grid.aInterp(h, dB), grid.bInterp(h, dB), CalcWidthIntended(ops, g, grid, nu, h, dB).value;
            && r.bestFit == 0.0 && r.minusUncert == 0.0
            && r.bestFit + r.plusUncert == Max(0.0, WidthPowerLaw(ops, g, nu, h, a - 7.0, b - 0.01).value)
  {
    UnclippedBounds(ops, g, grid, nu, h, dB);
  }
}
