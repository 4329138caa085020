/**
 * The lunar density profiles that feed the permittivity and conductivity of
 * the simulated Moon (FDTD_simulations/fdtd_10_kHz.py): a constant density,
 * and a stepped profile that looks the depth of a point up in a table of
 * seven layers.
 */
module MoonMedium {
  import opened RealMath

  /** The two components of a simulation position that the profiles read, in km. */
  datatype Position = Position(x: real, y: real)

  /** The radius of the Moon used by the profiles, in km. */
  const SurfaceRadius: real := 1737.0

  /** The depth, in km, at which each layer ends, and the density of that layer, in g/cc. */
  const DepthSteps: seq<real> := [1.0, 15.0, 40.0, 238.0, 1407.1, 1497.1, 10000000.0]
  const RhoSteps: seq<real> := [1.92, 2.7, 2.8, 3.3, 3.4, 5.1, 8.0]

  /** The density of the constant profile, in g/cc. */
  const ConstantRho: real := 3.34

  /** The squared distance of a position from the centre, x^2 + y^2. */
  function SquaredDistance(p: Position): (d: real)
    ensures 0.0 <= d
  {
    p.x * p.x + p.y * p.y
  }

  /**
   * The depth of a position below the surface, in km: the surface radius
   * minus the distance from the centre. It never exceeds the surface radius.
   */
  function Depth(ops: RealOps, p: Position): (z: real)
    requires Lawful(ops)
    ensures z <= SurfaceRadius
    ensures (SurfaceRadius - z) * (SurfaceRadius - z) == SquaredDistance(p)
  {
    SurfaceRadius - ops.sqrt(SquaredDistance(p))
  }

  /** Points farther from the centre are not deeper. */
  lemma DepthAntitone(ops: RealOps, p: Position, q: Position)
    requires Lawful(ops)
    requires SquaredDistance(p) <= SquaredDistance(q)
    ensures Depth(ops, q) <= Depth(ops, p)
  {
    SqrtMonotone(ops, SquaredDistance(p), SquaredDistance(q));
  }

  /** The element-wise comparison z < bounds, a boolean mask. */
  function Below(z: real, bounds: seq<real>): (mask: seq<bool>)
    ensures |mask| == |bounds|
    ensures forall i :: 0 <= i < |bounds| ==> mask[i] == (z < bounds[i])
  {
    seq(|bounds|, i requires 0 <= i < |bounds| => z < bounds[i])
  }

  /** Boolean-mask indexing: the values whose mask entry is true, in order. */
  function Compress(values: seq<real>, mask: seq<bool>): (r: seq<real>)
    requires |values| == |mask|
    ensures |r| <= |values|
    ensures forall v :: v in r ==> v in values
  {
    if values == [] then []
    else (if mask[0] then [values[0]] else []) + Compress(values[1..], mask[1..])
  }

  /** Indexing with [0]: the first element, or an IndexError (None) on an empty array. */
  function First(s: seq<real>): (r: Option<real>)
    ensures r.Some? <==> 0 < |s|
    ensures r.Some? ==> r.value == s[0]
  {
    if |s| == 0 then None else Some(s[0])
  }

  /**
   * The least index i with z < bounds[i], or |bounds| when there is none:
   * every earlier bound is at most z.
   */
  function FirstExceeding(z: real, bounds: seq<real>): (i: nat)
    ensures i <= |bounds|
    ensures forall j :: 0 <= j < i ==> bounds[j] <= z
    ensures i < |bounds| ==> z < bounds[i]
  {
    if bounds == [] then 0
    else if z < bounds[0] then 0
    else 1 + FirstExceeding(z, bounds[1..])
  }

  /** Leading false mask entries contribute nothing to the compressed array. */
  lemma {:induction false} CompressSkipsFalse(values: seq<real>, mask: seq<bool>, i: nat)
    requires |values| == |mask| && i <= |mask|
    requires forall j :: 0 <= j < i ==> !mask[j]
    ensures Compress(values, mask) == Compress(values[i..], mask[i..])
  {
    if i > 0 {
      assert Compress(values, mask) == Compress(values[1..], mask[1..]);
      CompressSkipsFalse(values[1..], mask[1..], i - 1);
      assert values[1..][i - 1..] == values[i..];
      assert mask[1..][i - 1..] == mask[i..];
    }
  }

  /** The first element selected by the mask is the value at the first true entry. */
  lemma CompressFirst(values: seq<real>, mask: seq<bool>, i: nat)
    requires |values| == |mask| && i < |mask| && mask[i]
    requires forall j :: 0 <= j < i ==> !mask[j]
    ensures First(Compress(values, mask)) == Some(values[i])
  {
    CompressSkipsFalse(values, mask, i);
    assert Compress(values[i..], mask[i..]) == [values[i]] + Compress(values[i + 1..], mask[i + 1..]);
  }

  /** A mask with no true entry selects nothing. */
  lemma CompressNone(values: seq<real>, mask: seq<bool>)
    requires |values| == |mask|
    requires forall j :: 0 <= j < |mask| ==> !mask[j]
    ensures First(Compress(values, mask)) == None
  {
    CompressSkipsFalse(values, mask, |mask|);
  }

  /** The layer bounds strictly increase and the densities never decrease. */
  lemma StepsSorted()
    ensures forall i, j :: 0 <= i < j < |DepthSteps| ==> DepthSteps[i] < DepthSteps[j]
    ensures |RhoSteps| == |DepthSteps|
    ensures forall i, j :: 0 <= i <= j < |RhoSteps| ==> RhoSteps[i] <= RhoSteps[j]
  {
  }

  /** rho_steps[z < depth_steps][0]: the density of the first layer whose bound exceeds z. */
  function StepDensity(z: real): (rho: Option<real>)
    ensures rho.Some? ==> rho.value in RhoSteps
  {
    First(Compress(RhoSteps, Below(z, DepthSteps)))
  }

  /**
   * The looked-up density is that of the least layer index i with
   * z < depth_steps[i]; there is none, and the lookup raises IndexError,
   * exactly when z is at least the last bound.
   */
  lemma StepDensityFirstMatch(z: real)
    ensures var i := FirstExceeding(z, DepthSteps);
            StepDensity(z) == if i < |DepthSteps| then Some(RhoSteps[i]) else None
    ensures StepDensity(z).Some? <==> z < 10000000.0
  {
    var i := FirstExceeding(z, DepthSteps);
    var mask := Below(z, DepthSteps);
    if i < |DepthSteps| {
      CompressFirst(RhoSteps, mask, i);
      StepsSorted();
      assert DepthSteps[i] <= DepthSteps[6];
    } else {
      CompressNone(RhoSteps, mask);
      assert DepthSteps[6] <= z;
    }
  }

  /** The density of any layer index satisfying the first-match condition. */
  lemma StepDensityAtLayer(z: real, i: nat)
    requires i < |DepthSteps| && z < DepthSteps[i]
    requires forall j :: 0 <= j < i ==> DepthSteps[j] <= z
    ensures StepDensity(z) == Some(RhoSteps[i])
  {
    CompressFirst(RhoSteps, Below(z, DepthSteps), i);
  }

  /** The stepped density never decreases with depth. */
  lemma StepDensityMonotone(z1: real, z2: real)
    requires z1 <= z2 < 10000000.0
    ensures StepDensity(z1).Some? && StepDensity(z2).Some?
    ensures StepDensity(z1).value <= StepDensity(z2).value
  {
    StepDensityFirstMatch(z1);
    StepDensityFirstMatch(z2);
    var i1, i2 := FirstExceeding(z1, DepthSteps), FirstExceeding(z2, DepthSteps);
    assert i1 <= i2;
    StepsSorted();
  }

  /**
   * moon_step's density at a position: always found, since every depth is at
   * most the surface radius, far below the last bound, and one of the seven
   * layer densities.
   */
  function MoonStepDensity(ops: RealOps, p: Position): (rho: Option<real>)
    requires Lawful(ops)
    ensures rho.Some? && rho.value in RhoSteps
  {
    StepDensityFirstMatch(Depth(ops, p));
    StepDensity(Depth(ops, p))
  }

  /** Moving no farther from the centre never lowers the stepped density. */
  lemma MoonStepDensityInward(ops: RealOps, p: Position, q: Position)
    requires Lawful(ops)
    requires SquaredDistance(q) <= SquaredDistance(p)
    ensures MoonStepDensity(ops, p).value <= MoonStepDensity(ops, q).value
  {
    DepthAntitone(ops, q, p);
    StepDensityMonotone(Depth(ops, p), Depth(ops, q));
  }

  /** moon_constant's density: its depth is computed but unused, so every position gets 3.34. */
  function MoonConstantDensity(p: Position): (rho: real)
    ensures rho == 3.34
  {
    ConstantRho
  }

  /** A corollary of the contract of `MoonConstantDensity`: the constant profile does not depend on the position. */
  lemma MoonConstantDensityUniform(p: Position, q: Position)
    ensures MoonConstantDensity(p) == MoonConstantDensity(q) == 3.34
  {
  }
}
