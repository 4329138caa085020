/**
 * Real-number stand-ins for the numpy routines the width estimator and the
 * density profiles call: square root, arc tangent, real power and pi.
 *
 * None of them is computed. A `RealOps` value bundles one choice of each,
 * and `Lawful` states the only facts about them that the proofs rely on.
 * Floating-point rounding is not modelled; a NaN that numpy would produce is
 * modelled as `None`.
 */
module RealMath {

  datatype Option<T> = None | Some(value: T)

  /** The library functions, passed around as values (np.sqrt, np.arctan, `**`, np.pi). */
  datatype RealOps = RealOps(sqrt: real -> real, arctan: real -> real, pow: (real, real) -> real, pi: real)

  /** The facts of real analysis that the model assumes of `ops`. */
  ghost predicate Lawful(ops: RealOps) {
    && (forall x :: 0.0 <= x ==> 0.0 <= ops.sqrt(x) && ops.sqrt(x) * ops.sqrt(x) == x)
    && 0.0 < ops.pi
    && (forall t :: 0.0 <= t ==> 0.0 <= ops.arctan(t) && 2.0 * ops.arctan(t) < ops.pi)
  }

  function Abs(x: real): real {
    if x < 0.0 then -x else x
  }

  /** Python's built-in `max` on two numbers. */
  function Max(x: real, y: real): (m: real)
    ensures x <= m && y <= m
    ensures m == x || m == y
  {
    if x < y then y else x
  }

  /** np.sqrt: the non-negative square root, or NaN (None) for a negative argument. */
  function NpSqrt(ops: RealOps, x: real): (r: Option<real>)
    requires Lawful(ops)
    ensures r.Some? <==> 0.0 <= x
    ensures r.Some? ==> 0.0 <= r.value && r.value * r.value == x
  {
    if x < 0.0 then None else Some(ops.sqrt(x))
  }

  /** Two non-negative reals with the same square are equal. */
  lemma NonNegativeSquareRootUnique(s: real, u: real)
    requires 0.0 <= s && 0.0 <= u && s * s == u * u
    ensures s == u
  {
    assert (s - u) * (s + u) == 0.0;
    if 0.0 < s + u {
      assert s - u == (s - u) * (s + u) / (s + u);
    }
  }

  /** The square root of a square is the absolute value. */
  lemma SqrtOfSquare(ops: RealOps, v: real, t: real)
    requires Lawful(ops) && v == t * t
    ensures ops.sqrt(v) == Abs(t)
  {
    assert 0.0 <= v;
    assert Abs(t) * Abs(t) == v;
    NonNegativeSquareRootUnique(ops.sqrt(v), Abs(t));
  }

  /** The square root is monotone on the non-negative reals. */
  lemma SqrtMonotone(ops: RealOps, u: real, v: real)
    requires Lawful(ops) && 0.0 <= u <= v
    ensures ops.sqrt(u) <= ops.sqrt(v)
  {
    var su, sv := ops.sqrt(u), ops.sqrt(v);
    assert (sv - su) * (sv + su) == v - u;
    if 0.0 < su + sv {
      assert sv - su == (v - u) / (su + sv);
      assert 0.0 <= (v - u) / (su + sv);
    }
  }
}
