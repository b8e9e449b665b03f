/**
 * Value-level definitions of the 3D FLIP engine: the CFL time step, the
 * kernel, the blend of the grid-to-particle transfer, particle advection, the
 * running average of the extrapolation, the right-hand side of the pressure
 * equation and the triplet list of the pressure matrix, with the facts proved
 * about them.
 */
module Flip3dSpec {
  import opened Common
  import opened Flip2dSpec

  // ---------------------------------------------------------------------------
  // compute_timestep

  /** The component along ax of largest magnitude among the particles'
      velocities, as compute_timestep's loop keeps it: it starts at 0 and a
      later particle replaces it only when strictly larger in magnitude. */
  function LargestComponent(ps: seq<Particle>, ax: Axis): (r: real)
    ensures forall n | 0 <= n < |ps| :: Abs(Comp(ps[n].vel, ax)) <= Abs(r)
    ensures r == 0.0 || exists n | 0 <= n < |ps| :: r == Comp(ps[n].vel, ax)
    decreases |ps|
  {
    if |ps| == 0 then 0.0
    else
      var m := LargestComponent(ps[..|ps| - 1], ax);
      var c := Comp(ps[|ps| - 1].vel, ax);
      if Abs(c) > Abs(m) then c else m
  }

  /** One axis pass of compute_timestep: a zero maximum resets the step to dt;
      otherwise the step drops to |cs/max| if that is smaller, and is capped at dt. */
  function AxisPass(prev: real, dt: real, cs: real, vmax: real): real
  {
    if vmax == 0.0 then dt
    else
      var t := Abs(cs / vmax);
      var s := if t < prev then t else prev;
      if s > dt then dt else s
  }

  /** compute_timestep for the largest components uMax, vMax, wMax. The x pass
      starts from dt, which with its cap is the same as its own branch. */
  function CflTimestep(dt: real, csx: real, csy: real, csz: real, uMax: real, vMax: real, wMax: real): real
  {
    AxisPass(AxisPass(AxisPass(dt, dt, csx, uMax), dt, csy, vMax), dt, csz, wMax)
  }

  /** The new step never exceeds dt, and is positive for a positive dt and
      positive cell sizes. */
  lemma TimestepBounds(dt: real, csx: real, csy: real, csz: real, uMax: real, vMax: real, wMax: real)
    ensures CflTimestep(dt, csx, csy, csz, uMax, vMax, wMax) <= dt
    ensures 0.0 < dt && 0.0 < csx && 0.0 < csy && 0.0 < csz ==> 0.0 < CflTimestep(dt, csx, csy, csz, uMax, vMax, wMax)
  {
    if 0.0 < dt && 0.0 < csx && 0.0 < csy && 0.0 < csz {
      AxisPassPositive(dt, dt, csx, uMax);
      var s1 := AxisPass(dt, dt, csx, uMax);
      AxisPassPositive(s1, dt, csy, vMax);
      AxisPassPositive(AxisPass(s1, dt, csy, vMax), dt, csz, wMax);
    }
  }

  lemma AxisPassPositive(prev: real, dt: real, cs: real, vmax: real)
    requires 0.0 < prev && 0.0 < dt && 0.0 < cs
    ensures 0.0 < AxisPass(prev, dt, cs, vmax)
  {
    if vmax != 0.0 {
      assert cs / vmax != 0.0;
    }
  }

  /** The step respects the CFL limit |cs/max| of every axis whose maximum is
      nonzero and is not followed by an axis with zero maximum (which resets
      the step to dt). */
  lemma TimestepCfl(dt: real, csx: real, csy: real, csz: real, uMax: real, vMax: real, wMax: real)
    ensures wMax != 0.0 ==> CflTimestep(dt, csx, csy, csz, uMax, vMax, wMax) <= Abs(csz / wMax)
    ensures vMax != 0.0 && wMax != 0.0 ==> CflTimestep(dt, csx, csy, csz, uMax, vMax, wMax) <= Abs(csy / vMax)
    ensures uMax != 0.0 && vMax != 0.0 && wMax != 0.0 ==>
      CflTimestep(dt, csx, csy, csz, uMax, vMax, wMax) <= Abs(csx / uMax)
  {
  }

  /** A zero maximum on an axis resets the step to dt, discarding the limits
      of the axes before it: on z nothing is left of x and y, on y only the
      z pass remains, and on x the x pass is a plain dt. */
  lemma TimestepResetByIdleAxis(dt: real, csx: real, csy: real, csz: real, uMax: real, vMax: real, wMax: real)
    ensures CflTimestep(dt, csx, csy, csz, uMax, vMax, 0.0) == dt
    ensures CflTimestep(dt, csx, csy, csz, uMax, 0.0, wMax) == AxisPass(dt, dt, csz, wMax)
    ensures CflTimestep(dt, csx, csy, csz, 0.0, vMax, wMax) == AxisPass(AxisPass(dt, dt, csy, vMax), dt, csz, wMax)
  {
  }

  /** With all particles at rest the step is dt itself. */
  lemma TimestepAtRest(ps: seq<Particle>, dt: real, csx: real, csy: real, csz: real)
    requires forall n | 0 <= n < |ps| :: ps[n].vel == Vec3(0.0, 0.0, 0.0)
    ensures CflTimestep(dt, csx, csy, csz, LargestComponent(ps, X), LargestComponent(ps, Y), LargestComponent(ps, Z)) == dt
  {
  }

  /** ceil(dt/dtNew) substeps of dtNew cover dt, and one fewer would not. */
  lemma SubstepsCover(dt: real, dtNew: real)
    requires 0.0 < dtNew <= dt
    ensures 1 <= Ceil(dt / dtNew)
    ensures dt <= Ceil(dt / dtNew) as real * dtNew < dt + dtNew
  {
    var q := dt / dtNew;
    var n := Ceil(q);
    assert q * dtNew == dt;
    assert 1.0 <= q;
    assert q <= n as real < q + 1.0;
    assert q * dtNew <= n as real * dtNew;
    assert (n as real - q) * dtNew < dtNew;
    assert n as real * dtNew < dt + dtNew;
  }

  // ---------------------------------------------------------------------------
  // check_threshold and compute_weight

  /** check_threshold: the particle lies within distance h of the grid point,
      the boundary included (`norm() <= h`, compared on squares). */
  function CheckThreshold3(pos: Vec3, gc: Vec3, h: real): (r: bool)
    ensures r ==> 0.0 <= h
    ensures 0.0 <= h ==> (r <==> Dist2(pos, gc) <= h * h)
  {
    0.0 <= h && Dist2(pos, gc) <= h * h
  }

  /** compute_weight: coeff * (h^2 - r^2)^3, where coeff stands for the
      poly6 constant 315/(64*pi*h^9). */
  function Weight3(coeff: real, pos: Vec3, gc: Vec3, h: real): real
  {
    var diff := h * h - Dist2(pos, gc);
    coeff * (diff * diff * diff)
  }

  /** The weight accumulate_u/v/w adds for a grid point: the kernel when the
      point passes the threshold test, nothing otherwise. */
  function AcceptedWeight(coeff: real, pos: Vec3, gc: Vec3, h: real): real
  {
    if CheckThreshold3(pos, gc, h) then Weight3(coeff, pos, gc, h) else 0.0
  }

  lemma CubeMonotone(a: real, b: real)
    requires 0.0 <= a <= b
    ensures 0.0 <= a * a * a <= b * b * b
  {
    assert a * a <= b * b by {
      assert a * a <= a * b <= b * b;
    }
    assert a * a * a <= b * b * b by {
      assert a * a * a <= a * a * b <= b * b * b;
    }
  }

  /** Every weight that passes the kernel test is nonnegative. */
  lemma AcceptedWeightNonnegative(coeff: real, pos: Vec3, gc: Vec3, h: real)
    requires 0.0 <= coeff && CheckThreshold3(pos, gc, h)
    ensures Weight3(coeff, pos, gc, h) >= 0.0
  {
    var diff := h * h - Dist2(pos, gc);
    CubeMonotone(0.0, diff);
  }

  /** The kernel test accepts a point at exactly distance h, and gives it weight 0. */
  lemma RadiusAcceptedWithZeroWeight(coeff: real, pos: Vec3, gc: Vec3, h: real)
    requires 0.0 <= h && Dist2(pos, gc) == h * h
    ensures CheckThreshold3(pos, gc, h) && Weight3(coeff, pos, gc, h) == 0.0
  {
  }

  /** Among accepted points a nearer one never weighs less. */
  lemma WeightDecreasesWithDistance(coeff: real, pos: Vec3, near: Vec3, far: Vec3, h: real)
    requires 0.0 <= coeff && CheckThreshold3(pos, near, h) && CheckThreshold3(pos, far, h)
    requires Dist2(pos, near) <= Dist2(pos, far)
    ensures Weight3(coeff, pos, far, h) <= Weight3(coeff, pos, near, h)
  {
    var dn := h * h - Dist2(pos, near);
    var df := h * h - Dist2(pos, far);
    CubeMonotone(df, dn);
    MulLeReal(coeff, df * df * df, dn * dn * dn);
  }

  lemma MulLeReal(c: real, a: real, b: real)
    requires 0.0 <= c && a <= b
    ensures c * a <= c * b
  {
    assert c * b - c * a == c * (b - a);
  }

  // ---------------------------------------------------------------------------
  // particle-to-grid sums

  /** The weight the particles ps give one face, in loop order, when each
      particle p adds kern(p). */
  function KernelSum(kern: Particle -> real, ps: seq<Particle>): real
  {
    if ps == [] then 0.0 else KernelSum(kern, ps[..|ps| - 1]) + kern(ps[|ps| - 1])
  }

  /** The accumulated velocity of one face of family ax: each particle adds
      its kernel times its velocity component. */
  function MomentumSum(kern: Particle -> real, ax: Axis, ps: seq<Particle>): real
  {
    if ps == [] then 0.0 else MomentumSum(kern, ax, ps[..|ps| - 1]) + Share(kern, ax, ps[|ps| - 1])
  }

  /** What particle p adds to the accumulated velocity: its kernel times its
      velocity component along ax. */
  function Share(kern: Particle -> real, ax: Axis, p: Particle): real
  {
    kern(p) * Comp(p.vel, ax)
  }

  /** The normalised value of the face: the accumulated velocity divided by
      the weight when that is nonzero, left as it is otherwise. */
  function WeightedMean(kern: Particle -> real, ax: Axis, ps: seq<Particle>): real
  {
    var w := KernelSum(kern, ps);
    if w != 0.0 then MomentumSum(kern, ax, ps) / w else MomentumSum(kern, ax, ps)
  }

  /** Adding particle n to the first n extends both sums by its share. */
  lemma SumsExtend(kern: Particle -> real, ax: Axis, ps: seq<Particle>, n: int)
    requires 0 <= n < |ps|
    ensures KernelSum(kern, ps[..n + 1]) == KernelSum(kern, ps[..n]) + kern(ps[n])
    ensures MomentumSum(kern, ax, ps[..n + 1]) == MomentumSum(kern, ax, ps[..n]) + Share(kern, ax, ps[n])
  {
    assert ps[..n + 1][..n] == ps[..n];
  }

  /** Nonnegative kernels give a nonnegative weight. */
  lemma {:induction false} KernelSumNonnegative(kern: Particle -> real, ps: seq<Particle>)
    requires forall n | 0 <= n < |ps| :: kern(ps[n]) >= 0.0
    ensures KernelSum(kern, ps) >= 0.0
  {
    if ps != [] {
      var last := |ps| - 1;
      assert forall n | 0 <= n < last :: ps[..last][n] == ps[n];
      KernelSumNonnegative(kern, ps[..last]);
    }
  }

  /** With nonnegative kernels, one particle with a positive kernel makes
      the weight positive. */
  lemma {:induction false} KernelSumPositive(kern: Particle -> real, ps: seq<Particle>, n: int)
    requires forall m | 0 <= m < |ps| :: kern(ps[m]) >= 0.0
    requires 0 <= n < |ps| && kern(ps[n]) > 0.0
    ensures KernelSum(kern, ps) > 0.0
  {
    var last := |ps| - 1;
    assert forall m | 0 <= m < last :: ps[..last][m] == ps[m];
    if n == last {
      KernelSumNonnegative(kern, ps[..last]);
    } else {
      KernelSumPositive(kern, ps[..last], n);
    }
  }

  /** A face no particle reaches gets neither weight nor velocity. */
  lemma {:induction false} UnreachedFaceEmpty(kern: Particle -> real, ax: Axis, ps: seq<Particle>)
    requires forall n | 0 <= n < |ps| :: kern(ps[n]) == 0.0
    ensures KernelSum(kern, ps) == 0.0 && MomentumSum(kern, ax, ps) == 0.0 && WeightedMean(kern, ax, ps) == 0.0
  {
    if ps != [] {
      var last := |ps| - 1;
      assert forall n | 0 <= n < last :: ps[..last][n] == ps[n];
      UnreachedFaceEmpty(kern, ax, ps[..last]);
    }
  }

  /** When every particle that reaches the face (nonzero kernel) has the
      component vc, the accumulated velocity is vc times the weight. */
  lemma UniformMomentum(kern: Particle -> real, ax: Axis, vc: real, ps: seq<Particle>)
    requires forall n | 0 <= n < |ps| :: kern(ps[n]) != 0.0 ==> Comp(ps[n].vel, ax) == vc
    ensures MomentumSum(kern, ax, ps) == vc * KernelSum(kern, ps)
  {
    UniformMomentumPrefix(kern, ax, vc, ps, |ps|);
    WholePrefixSums(kern, ax, ps);
  }

  /** The sums over the prefix of full length are the sums over ps. */
  lemma WholePrefixSums(kern: Particle -> real, ax: Axis, ps: seq<Particle>)
    ensures MomentumSum(kern, ax, ps[..|ps|]) == MomentumSum(kern, ax, ps)
    ensures KernelSum(kern, ps[..|ps|]) == KernelSum(kern, ps)
  {
    assert ps[..|ps|] == ps;
  }

  /** The same for the first k particles, by induction on k. */
  lemma {:induction false} UniformMomentumPrefix(kern: Particle -> real, ax: Axis, vc: real, ps: seq<Particle>, k: int)
    requires forall n | 0 <= n < |ps| :: kern(ps[n]) != 0.0 ==> Comp(ps[n].vel, ax) == vc
    requires 0 <= k <= |ps|
    ensures MomentumSum(kern, ax, ps[..k]) == vc * KernelSum(kern, ps[..k])
    decreases k
  {
    if k == 0 {
      assert ps[..k] == [];
    } else {
      var last := k - 1;
      UniformMomentumPrefix(kern, ax, vc, ps, last);
      UniformMomentumGrows(kern, ax, vc, ps, last, k);
    }
  }

  /** One particle more that is either unreached or moves with vc keeps the
      accumulated velocity at vc times the weight. */
  lemma UniformMomentumGrows(kern: Particle -> real, ax: Axis, vc: real, ps: seq<Particle>, last: int, k: int)
    requires 0 <= last < |ps| && k == last + 1
    requires MomentumSum(kern, ax, ps[..last]) == vc * KernelSum(kern, ps[..last])
    requires kern(ps[last]) != 0.0 ==> Comp(ps[last].vel, ax) == vc
    ensures MomentumSum(kern, ax, ps[..k]) == vc * KernelSum(kern, ps[..k])
  {
    SumsExtend(kern, ax, ps, last);
    UniformStep(MomentumSum(kern, ax, ps[..k]), KernelSum(kern, ps[..k]),
                MomentumSum(kern, ax, ps[..last]), KernelSum(kern, ps[..last]),
                kern(ps[last]), Comp(ps[last].vel, ax), vc);
  }

  /** A particle's share is its kernel times vc when it has the component vc
      or its kernel is zero. */
  lemma ShareOfUniform(kn: real, c: real, vc: real)
    requires kn != 0.0 ==> c == vc
    ensures kn * c == kn * vc
  {
    if kn == 0.0 {
      assert kn * c == 0.0 && kn * vc == 0.0;
    }
  }

  lemma Distribute(vc: real, w0: real, kn: real)
    ensures vc * (w0 + kn) == vc * w0 + kn * vc
  {}

  /** One particle more keeps the accumulated velocity at vc times the weight. */
  lemma UniformStep(m: real, w: real, m0: real, w0: real, kn: real, c: real, vc: real)
    requires m == m0 + kn * c && w == w0 + kn
    requires m0 == vc * w0
    requires kn != 0.0 ==> c == vc
    ensures m == vc * w
  {
    ShareOfUniform(kn, c, vc);
    Distribute(vc, w0, kn);
  }

  /** Particle-to-grid transfer reproduces a uniform flow: when every particle
      that reaches a face has the component vc, a face with nonzero weight
      gets exactly vc. Particles the kernel does not reach may move freely;
      in particular a face reached by one particle gets that particle's
      component. */
  lemma TransferKeepsUniformFlow(kern: Particle -> real, ax: Axis, vc: real, ps: seq<Particle>)
    requires forall n | 0 <= n < |ps| :: kern(ps[n]) != 0.0 ==> Comp(ps[n].vel, ax) == vc
    requires KernelSum(kern, ps) != 0.0
    ensures WeightedMean(kern, ax, ps) == vc
  {
    UniformMomentum(kern, ax, vc, ps);
    var w := KernelSum(kern, ps);
    assert MomentumSum(kern, ax, ps) == vc * w;
    assert WeightedMean(kern, ax, ps) == (vc * w) / w;
    DivCancel(vc, w);
  }

  /** A face the kernel of exactly one particle reaches gets that particle's
      velocity component. */
  lemma SingleReachGetsItsComponent(kern: Particle -> real, ax: Axis, ps: seq<Particle>, n0: int)
    requires 0 <= n0 < |ps| && kern(ps[n0]) > 0.0
    requires forall n | 0 <= n < |ps| && n != n0 :: kern(ps[n]) == 0.0
    ensures WeightedMean(kern, ax, ps) == Comp(ps[n0].vel, ax)
  {
    KernelSumPositive(kern, ps, n0);
    TransferKeepsUniformFlow(kern, ax, Comp(ps[n0].vel, ax), ps);
  }

  lemma DivCancel(x: real, w: real)
    requires w != 0.0
    ensures (x * w) / w == x
  {}

  lemma QuotientPositive(x: real, y: real)
    requires 0.0 < x && 0.0 < y
    ensures 0.0 < x / y
  {}

  // ---------------------------------------------------------------------------
  // grid_to_particle

  /** The FLIP share of the velocity update: 1 - min(1, 2*alpha) for a particle
      in a cell at the edge of the grid, 1 - alpha elsewhere. */
  function FlipShare(alpha: real, atEdge: bool): (r: real)
    ensures atEdge && 0.5 <= alpha ==> r == 0.0
    ensures !atEdge ==> r == 1.0 - alpha
  {
    if atEdge then 1.0 - Min(1.0, 2.0 * alpha) else 1.0 - alpha
  }

  /** One velocity component after grid_to_particle: old*f + new - star*f for
      the FLIP share f. */
  function Blend3(alpha: real, atEdge: bool, old_: real, new_: real, star: real): real
  {
    var f := FlipShare(alpha, atEdge);
    old_ * f + new_ - star * f
  }

  /** The update is the mix (1-f)*PIC + f*FLIP, where PIC takes the interpolated
      new velocity and FLIP adds its change to the old velocity. */
  lemma Blend3IsFlipPicMix(alpha: real, atEdge: bool, old_: real, new_: real, star: real)
    ensures var f := FlipShare(alpha, atEdge);
      Blend3(alpha, atEdge, old_, new_, star) == (1.0 - f) * new_ + f * (old_ + (new_ - star))
  {
  }

  /** At the edge of the grid, alpha >= 1/2 makes the update pure PIC. */
  lemma Blend3EdgeIsPic(alpha: real, old_: real, new_: real, star: real)
    requires 0.5 <= alpha
    ensures Blend3(alpha, true, old_, new_, star) == new_
  {
  }

  /** Inside the grid, alpha = 0 makes the update pure FLIP: the old velocity
      plus the change of the grid velocity. */
  lemma Blend3InteriorFlip(old_: real, new_: real, star: real)
    ensures Blend3(0.0, false, old_, new_, star) == old_ + (new_ - star)
  {
  }

  /** A particle already moving with the velocity of an unchanged grid keeps it. */
  lemma Blend3Steady(alpha: real, atEdge: bool, c: real)
    ensures Blend3(alpha, atEdge, c, c, c) == c
  {
  }

  // ---------------------------------------------------------------------------
  // advance_particles

  /** A coordinate lies outside the window (-cs/2, size - cs/2) of one axis. */
  predicate OutOfWindow(x: real, cs: real, size: real)
  {
    x <= -0.5 * cs || x >= size - 0.5 * cs
  }

  /** The clamp of advance_particles on one axis: both tests read the unclamped
      coordinate; below the window it becomes 0, above it size - cs. */
  function ClampCoord(x: real, cs: real, size: real): (r: real)
    ensures !OutOfWindow(x, cs, size) ==> r == x
    ensures 0.0 < cs <= size ==> !OutOfWindow(r, cs, size)
    ensures x <= -0.5 * cs && 0.0 < size ==> r == 0.0
    ensures x >= size - 0.5 * cs ==> r == size - cs
  {
    var x1 := if x <= -0.5 * cs then 0.0 else x;
    if x >= size - 0.5 * cs then size - cs else x1
  }

  /** The pull-back of advance_particles on one axis when the new cell is
      solid: the coordinate goes a quarter cell from the previous cell's
      corner toward the previous cell; no change of index keeps it. */
  function PullBack(prev: int, next: int, s: real, x: real): real
  {
    if prev > next then (prev as real - 0.25) * s
    else if prev < next then (prev as real + 0.25) * s
    else x
  }

  /** A pulled-back coordinate lies strictly between the corners of the two
      cells, so it never leaves the span the particle crossed. */
  lemma PullBackBetween(prev: int, next: int, s: real, x: real)
    ensures prev == next ==> PullBack(prev, next, s, x) == x
    ensures 0.0 < s && prev > next ==> next as real * s < PullBack(prev, next, s, x) < prev as real * s
    ensures 0.0 < s && prev < next ==> prev as real * s < PullBack(prev, next, s, x) < next as real * s
  {
    var r, a, b := PullBack(prev, next, s, x), prev as real, next as real;
    if 0.0 < s && prev > next {
      var d := a - 0.25 - b;
      assert d >= 0.75;
      assert r - b * s == d * s;
      assert a * s - r == 0.25 * s;
    } else if 0.0 < s && prev < next {
      var d := b - a - 0.25;
      assert d >= 0.75;
      assert b * s - r == d * s;
      assert r - a * s == 0.25 * s;
    }
  }

  // ---------------------------------------------------------------------------
  // compute_pressure_rhs

  /** d_ijk of compute_pressure_rhs before its scaling by density*dx/dt. The
      cell's faces are uL = u(i,j,k), uR = u(i+1,j,k), vB, vT, wB, wT likewise;
      a wall flag says that side borders a solid cell or the grid edge. The
      negative divergence is corrected by adding the wall side's face: on the
      upper side that cancels the face, on the lower side it counts it twice. */
  function RhsDivergence3(uL: real, uR: real, vB: real, vT: real, wB: real, wT: real,
                          wallXm: bool, wallXp: bool, wallYm: bool, wallYp: bool,
                          wallZm: bool, wallZp: bool): (r: real)
    ensures r == (if wallXm then 2.0 * uL else uL) + (if wallXp then 0.0 else -uR)
               + (if wallYm then 2.0 * vB else vB) + (if wallYp then 0.0 else -vT)
               + (if wallZm then 2.0 * wB else wB) + (if wallZp then 0.0 else -wT)
  {
    var d := -(uR - uL);
    var d := d - (vT - vB);
    var d := d - (wT - wB);
    var d := if wallXp then d + uR else d;
    var d := if wallXm then d + uL else d;
    var d := if wallYp then d + vT else d;
    var d := if wallYm then d + vB else d;
    var d := if wallZp then d + wT else d;
    if wallZm then d + wB else d
  }

  /** Away from walls the value is the negative discrete divergence of the cell. */
  lemma RhsInterior(uL: real, uR: real, vB: real, vT: real, wB: real, wT: real)
    ensures RhsDivergence3(uL, uR, vB, vT, wB, wT, false, false, false, false, false, false)
            == -((uR - uL) + (vT - vB) + (wT - wB))
  {
  }

  /** When every wall face carries zero velocity, as apply_boundary_conditions
      leaves them, the corrections vanish and the value is again the negative
      divergence. */
  lemma RhsZeroWallFaces(uL: real, uR: real, vB: real, vT: real, wB: real, wT: real,
                         wallXm: bool, wallXp: bool, wallYm: bool, wallYp: bool, wallZm: bool, wallZp: bool)
    requires (wallXm ==> uL == 0.0) && (wallXp ==> uR == 0.0)
    requires (wallYm ==> vB == 0.0) && (wallYp ==> vT == 0.0)
    requires (wallZm ==> wB == 0.0) && (wallZp ==> wT == 0.0)
    ensures RhsDivergence3(uL, uR, vB, vT, wB, wT, wallXm, wallXp, wallYm, wallYp, wallZm, wallZp)
            == -((uR - uL) + (vT - vB) + (wT - wB))
  {
  }

  // ---------------------------------------------------------------------------
  // The triplet list of compute_pressure_matrix, over the fluid flags fl
  // (cell (i,j,k) at fl[i][j][k], flat index i + n*j + n*m*k) and the
  // diagonal vector diag.

  predicate CellFlags(fl: seq<seq<seq<bool>>>, n: int, m: int, l: int)
  {
    && 0 < n && 0 < m && 0 < l && |fl| == n
    && (forall i | 0 <= i < n :: |fl[i]| == m)
    && (forall i, j | 0 <= i < n && 0 <= j < m :: |fl[i][j]| == l)
  }

  /** Entry c of A_diag_ is a triplet (c,c,_), one per cell. */
  predicate DiagPerCell(diag: seq<Triplet>, cells: int)
  {
    |diag| == cells && forall c | 0 <= c < |diag| :: diag[c].row == c && diag[c].col == c
  }

  predicate MatrixInputs3(fl: seq<seq<seq<bool>>>, diag: seq<Triplet>, n: int, m: int, l: int)
  {
    CellFlags(fl, n, m, l) && DiagPerCell(diag, n * m * l)
  }

  /** The two -1 entries (c,d) and (d,c). */
  function Pair(c: int, d: int): (r: seq<Triplet>)
  {
    [Triplet(c, d, -1.0), Triplet(d, c, -1.0)]
  }

  /** The pair pushed for fluid cell (i,j,k) toward its upper neighbour along
      ax, at flat offset 1, n or n*m, when that neighbour exists and is fluid. */
  function UpperPair(fl: seq<seq<seq<bool>>>, n: int, m: int, l: int, i: int, j: int, k: int, ax: Axis): seq<Triplet>
    requires CellFlags(fl, n, m, l) && 0 <= i < n && 0 <= j < m && 0 <= k < l
  {
    var c := Flat3(n, m, i, j, k);
    match ax
    case X => if i + 1 < n && fl[i + 1][j][k] then Pair(c, c + 1) else []
    case Y => if j + 1 < m && fl[i][j + 1][k] then Pair(c, c + n) else []
    case Z => if k + 1 < l && fl[i][j][k + 1] then Pair(c, c + n * m) else []
  }

  /** The pairs pushed for fluid cell (i,j,k): x, then y, then z. */
  function NeighbourPairs(fl: seq<seq<seq<bool>>>, n: int, m: int, l: int, i: int, j: int, k: int): seq<Triplet>
    requires CellFlags(fl, n, m, l) && 0 <= i < n && 0 <= j < m && 0 <= k < l
  {
    UpperPair(fl, n, m, l, i, j, k, X) + UpperPair(fl, n, m, l, i, j, k, Y) + UpperPair(fl, n, m, l, i, j, k, Z)
  }

  /** The triplets pushed for cell (i,j,k): its A_diag_ entry, for every cell,
      and the neighbour pairs when the cell is fluid. */
  function CellTriplets3(fl: seq<seq<seq<bool>>>, diag: seq<Triplet>, n: int, m: int, l: int,
                         i: int, j: int, k: int): seq<Triplet>
    requires MatrixInputs3(fl, diag, n, m, l) && 0 <= i < n && 0 <= j < m && 0 <= k < l
  {
    Flat3Bounds(n, m, l, i, j, k);
    [diag[Flat3(n, m, i, j, k)]] + (if fl[i][j][k] then NeighbourPairs(fl, n, m, l, i, j, k) else [])
  }

  /** The triplets pushed for cells (0,j,k) .. (i-1,j,k). */
  function RowPrefix3(fl: seq<seq<seq<bool>>>, diag: seq<Triplet>, n: int, m: int, l: int,
                      i: int, j: int, k: int): seq<Triplet>
    requires MatrixInputs3(fl, diag, n, m, l) && 0 <= i <= n && 0 <= j < m && 0 <= k < l
    decreases i
  {
    if i == 0 then [] else RowPrefix3(fl, diag, n, m, l, i - 1, j, k) + CellTriplets3(fl, diag, n, m, l, i - 1, j, k)
  }

  /** The triplets pushed for rows 0 .. j-1 of plane k. */
  function PlanePrefix3(fl: seq<seq<seq<bool>>>, diag: seq<Triplet>, n: int, m: int, l: int,
                        j: int, k: int): seq<Triplet>
    requires MatrixInputs3(fl, diag, n, m, l) && 0 <= j <= m && 0 <= k < l
    decreases j
  {
    if j == 0 then [] else PlanePrefix3(fl, diag, n, m, l, j - 1, k) + RowPrefix3(fl, diag, n, m, l, n, j - 1, k)
  }

  /** The triplets pushed for planes 0 .. k-1, in loop order. */
  function Planes3(fl: seq<seq<seq<bool>>>, diag: seq<Triplet>, n: int, m: int, l: int, k: int): seq<Triplet>
    requires MatrixInputs3(fl, diag, n, m, l) && 0 <= k <= l
    decreases k
  {
    if k == 0 then [] else Planes3(fl, diag, n, m, l, k - 1) + PlanePrefix3(fl, diag, n, m, l, m, k - 1)
  }

  /** The whole triplet list of compute_pressure_matrix. */
  function MatrixTriplets3(fl: seq<seq<seq<bool>>>, diag: seq<Triplet>, n: int, m: int, l: int): seq<Triplet>
    requires MatrixInputs3(fl, diag, n, m, l)
  {
    Planes3(fl, diag, n, m, l, l)
  }

  /** Cell r is fluid and c is its fluid neighbour on the upper side of one axis. */
  predicate Linked3(fl: seq<seq<seq<bool>>>, n: int, m: int, l: int, r: int, c: int)
    requires CellFlags(fl, n, m, l)
  {
    exists i, j, k | 0 <= i < n && 0 <= j < m && 0 <= k < l :: LinkedAt(fl, n, m, l, r, c, i, j, k)
  }

  /** Linked3 with its witness: r is fluid cell (i,j,k) and c the flat index of
      its fluid upper neighbour along x, y or z. */
  predicate LinkedAt(fl: seq<seq<seq<bool>>>, n: int, m: int, l: int, r: int, c: int, i: int, j: int, k: int)
    requires CellFlags(fl, n, m, l)
  {
    && 0 <= i < n && 0 <= j < m && 0 <= k < l && r == Flat3(n, m, i, j, k) && fl[i][j][k]
    && ((i + 1 < n && c == r + 1 && fl[i + 1][j][k])
        || (j + 1 < m && c == r + n && fl[i][j + 1][k])
        || (k + 1 < l && c == r + n * m && fl[i][j][k + 1]))
  }

  /** What every pushed triplet looks like: indices inside [0, n*m*l); a
      diagonal entry is that cell's A_diag_ entry; any other entry is -1 and
      joins two fluid cells adjacent along one axis. */
  predicate WellFormed3(fl: seq<seq<seq<bool>>>, diag: seq<Triplet>, n: int, m: int, l: int, t: Triplet)
    requires MatrixInputs3(fl, diag, n, m, l)
  {
    && 0 <= t.row < n * m * l && 0 <= t.col < n * m * l
    && (t.row == t.col ==> t == diag[t.row])
    && (t.row != t.col ==>
          t.value == -1.0 && (Linked3(fl, n, m, l, t.row, t.col) || Linked3(fl, n, m, l, t.col, t.row)))
  }

  predicate AllWellFormed3(fl: seq<seq<seq<bool>>>, diag: seq<Triplet>, n: int, m: int, l: int, ts: seq<Triplet>)
    requires MatrixInputs3(fl, diag, n, m, l)
  {
    forall p | 0 <= p < |ts| :: WellFormed3(fl, diag, n, m, l, ts[p])
  }

  lemma MirrorClosedConcat(a: seq<Triplet>, b: seq<Triplet>)
    requires MirrorClosed(a) && MirrorClosed(b)
    ensures MirrorClosed(a + b)
  {
    forall t | t in a + b && t.value == -1.0
      ensures Triplet(t.col, t.row, -1.0) in a + b
    {
      if t in a {
        assert Triplet(t.col, t.row, -1.0) in a;
      } else {
        assert Triplet(t.col, t.row, -1.0) in b;
      }
    }
  }

  lemma WellFormedConcat(fl: seq<seq<seq<bool>>>, diag: seq<Triplet>, n: int, m: int, l: int, a: seq<Triplet>, b: seq<Triplet>)
    requires MatrixInputs3(fl, diag, n, m, l)
    requires AllWellFormed3(fl, diag, n, m, l, a) && AllWellFormed3(fl, diag, n, m, l, b)
    ensures AllWellFormed3(fl, diag, n, m, l, a + b)
  {
    forall p | 0 <= p < |a + b|
      ensures WellFormed3(fl, diag, n, m, l, (a + b)[p])
    {
      if p < |a| {
        assert (a + b)[p] == a[p];
      } else {
        assert (a + b)[p] == b[p - |a|];
      }
    }
  }

  /** The flat index of the upper neighbours along each axis. */
  lemma Flat3Steps(n: int, m: int, i: int, j: int, k: int)
    ensures Flat3(n, m, i + 1, j, k) == Flat3(n, m, i, j, k) + 1
    ensures Flat3(n, m, i, j + 1, k) == Flat3(n, m, i, j, k) + n
    ensures Flat3(n, m, i, j, k + 1) == Flat3(n, m, i, j, k) + n * m
  {
    assert n * (j + 1) == n * j + n;
    assert (n * m) * (k + 1) == (n * m) * k + n * m;
  }

  /** A pair between a fluid cell and its fluid upper neighbour is well formed and mirror closed. */
  lemma PairFacts(fl: seq<seq<seq<bool>>>, diag: seq<Triplet>, n: int, m: int, l: int,
                  i: int, j: int, k: int, i': int, j': int, k': int)
    requires MatrixInputs3(fl, diag, n, m, l) && 0 <= i < n && 0 <= j < m && 0 <= k < l
    requires 0 <= i' < n && 0 <= j' < m && 0 <= k' < l && fl[i][j][k] && fl[i'][j'][k']
    requires (i', j', k') == (i + 1, j, k) || (i', j', k') == (i, j + 1, k) || (i', j', k') == (i, j, k + 1)
    ensures var c, d := Flat3(n, m, i, j, k), Flat3(n, m, i', j', k');
      Linked3(fl, n, m, l, c, d) && c != d
      && AllWellFormed3(fl, diag, n, m, l, Pair(c, d)) && MirrorClosed(Pair(c, d))
  {
    Flat3Bounds(n, m, l, i, j, k);
    Flat3Bounds(n, m, l, i', j', k');
    Flat3Steps(n, m, i, j, k);
    var c, d := Flat3(n, m, i, j, k), Flat3(n, m, i', j', k');
    assert 0 < n * m by {
      MulLe(n, 1, m);
    }
    assert LinkedAt(fl, n, m, l, c, d, i, j, k);
  }

  lemma UpperPairFacts(fl: seq<seq<seq<bool>>>, diag: seq<Triplet>, n: int, m: int, l: int,
                       i: int, j: int, k: int, ax: Axis)
    requires MatrixInputs3(fl, diag, n, m, l) && 0 <= i < n && 0 <= j < m && 0 <= k < l && fl[i][j][k]
    ensures AllWellFormed3(fl, diag, n, m, l, UpperPair(fl, n, m, l, i, j, k, ax))
    ensures MirrorClosed(UpperPair(fl, n, m, l, i, j, k, ax))
  {
    var c := Flat3(n, m, i, j, k);
    var pr := UpperPair(fl, n, m, l, i, j, k, ax);
    match ax
    case X =>
      if i + 1 < n && fl[i + 1][j][k] {
        assert AllWellFormed3(fl, diag, n, m, l, pr) && MirrorClosed(pr) by {
          PairFacts(fl, diag, n, m, l, i, j, k, i + 1, j, k);
          assert pr == Pair(c, Flat3(n, m, i + 1, j, k));
        }
      }
    case Y =>
      if j + 1 < m && fl[i][j + 1][k] {
        assert AllWellFormed3(fl, diag, n, m, l, pr) && MirrorClosed(pr) by {
          PairFacts(fl, diag, n, m, l, i, j, k, i, j + 1, k);
          Flat3Steps(n, m, i, j, k);
          assert pr == Pair(c, Flat3(n, m, i, j + 1, k));
        }
      }
    case Z =>
      if k + 1 < l && fl[i][j][k + 1] {
        assert AllWellFormed3(fl, diag, n, m, l, pr) && MirrorClosed(pr) by {
          PairFacts(fl, diag, n, m, l, i, j, k, i, j, k + 1);
          Flat3Steps(n, m, i, j, k);
          assert pr == Pair(c, Flat3(n, m, i, j, k + 1));
        }
      }
  }

  lemma CellTriplets3Facts(fl: seq<seq<seq<bool>>>, diag: seq<Triplet>, n: int, m: int, l: int, i: int, j: int, k: int)
    requires MatrixInputs3(fl, diag, n, m, l) && 0 <= i < n && 0 <= j < m && 0 <= k < l
    ensures AllWellFormed3(fl, diag, n, m, l, CellTriplets3(fl, diag, n, m, l, i, j, k))
    ensures MirrorClosed(CellTriplets3(fl, diag, n, m, l, i, j, k))
  {
    Flat3Bounds(n, m, l, i, j, k);
    var c := Flat3(n, m, i, j, k);
    var head := [diag[c]];
    assert AllWellFormed3(fl, diag, n, m, l, head) && MirrorClosed(head);
    if fl[i][j][k] {
      var px, py, pz := UpperPair(fl, n, m, l, i, j, k, X), UpperPair(fl, n, m, l, i, j, k, Y), UpperPair(fl, n, m, l, i, j, k, Z);
      UpperPairFacts(fl, diag, n, m, l, i, j, k, X);
      UpperPairFacts(fl, diag, n, m, l, i, j, k, Y);
      UpperPairFacts(fl, diag, n, m, l, i, j, k, Z);
      WellFormedConcat(fl, diag, n, m, l, px, py);
      MirrorClosedConcat(px, py);
      WellFormedConcat(fl, diag, n, m, l, px + py, pz);
      MirrorClosedConcat(px + py, pz);
      WellFormedConcat(fl, diag, n, m, l, head, px + py + pz);
      MirrorClosedConcat(head, px + py + pz);
    } else {
      assert CellTriplets3(fl, diag, n, m, l, i, j, k) == head;
    }
  }

  lemma {:induction false} RowPrefix3Facts(fl: seq<seq<seq<bool>>>, diag: seq<Triplet>, n: int, m: int, l: int,
                                           i: int, j: int, k: int)
    requires MatrixInputs3(fl, diag, n, m, l) && 0 <= i <= n && 0 <= j < m && 0 <= k < l
    ensures AllWellFormed3(fl, diag, n, m, l, RowPrefix3(fl, diag, n, m, l, i, j, k))
    ensures MirrorClosed(RowPrefix3(fl, diag, n, m, l, i, j, k))
    decreases i
  {
    if i > 0 {
      var a, b := RowPrefix3(fl, diag, n, m, l, i - 1, j, k), CellTriplets3(fl, diag, n, m, l, i - 1, j, k);
      RowPrefix3Facts(fl, diag, n, m, l, i - 1, j, k);
      CellTriplets3Facts(fl, diag, n, m, l, i - 1, j, k);
      WellFormedConcat(fl, diag, n, m, l, a, b);
      MirrorClosedConcat(a, b);
    }
  }

  lemma {:induction false} PlanePrefix3Facts(fl: seq<seq<seq<bool>>>, diag: seq<Triplet>, n: int, m: int, l: int,
                                             j: int, k: int)
    requires MatrixInputs3(fl, diag, n, m, l) && 0 <= j <= m && 0 <= k < l
    ensures AllWellFormed3(fl, diag, n, m, l, PlanePrefix3(fl, diag, n, m, l, j, k))
    ensures MirrorClosed(PlanePrefix3(fl, diag, n, m, l, j, k))
    decreases j
  {
    if j > 0 {
      PlanePrefix3Facts(fl, diag, n, m, l, j - 1, k);
      PlaneStep3(fl, diag, n, m, l, j - 1, k);
    }
  }

  /** Appending row j keeps the plane prefix well formed and mirror closed. */
  lemma PlaneStep3(fl: seq<seq<seq<bool>>>, diag: seq<Triplet>, n: int, m: int, l: int, j: int, k: int)
    requires MatrixInputs3(fl, diag, n, m, l) && 0 <= j < m && 0 <= k < l
    requires AllWellFormed3(fl, diag, n, m, l, PlanePrefix3(fl, diag, n, m, l, j, k))
    requires MirrorClosed(PlanePrefix3(fl, diag, n, m, l, j, k))
    ensures AllWellFormed3(fl, diag, n, m, l, PlanePrefix3(fl, diag, n, m, l, j + 1, k))
    ensures MirrorClosed(PlanePrefix3(fl, diag, n, m, l, j + 1, k))
  {
    var a, b := PlanePrefix3(fl, diag, n, m, l, j, k), RowPrefix3(fl, diag, n, m, l, n, j, k);
    RowPrefix3Facts(fl, diag, n, m, l, n, j, k);
    WellFormedConcat(fl, diag, n, m, l, a, b);
    MirrorClosedConcat(a, b);
  }

  lemma {:induction false} Planes3Facts(fl: seq<seq<seq<bool>>>, diag: seq<Triplet>, n: int, m: int, l: int, k: int)
    requires MatrixInputs3(fl, diag, n, m, l) && 0 <= k <= l
    ensures AllWellFormed3(fl, diag, n, m, l, Planes3(fl, diag, n, m, l, k))
    ensures MirrorClosed(Planes3(fl, diag, n, m, l, k))
    decreases k
  {
    if k > 0 {
      Planes3Facts(fl, diag, n, m, l, k - 1);
      Planes3Step(fl, diag, n, m, l, k - 1);
    }
  }

  /** Appending plane k keeps the triplet list well formed and mirror closed. */
  lemma Planes3Step(fl: seq<seq<seq<bool>>>, diag: seq<Triplet>, n: int, m: int, l: int, k: int)
    requires MatrixInputs3(fl, diag, n, m, l) && 0 <= k < l
    requires AllWellFormed3(fl, diag, n, m, l, Planes3(fl, diag, n, m, l, k))
    requires MirrorClosed(Planes3(fl, diag, n, m, l, k))
    ensures AllWellFormed3(fl, diag, n, m, l, Planes3(fl, diag, n, m, l, k + 1))
    ensures MirrorClosed(Planes3(fl, diag, n, m, l, k + 1))
  {
    var a, b := Planes3(fl, diag, n, m, l, k), PlanePrefix3(fl, diag, n, m, l, m, k);
    PlanePrefix3Facts(fl, diag, n, m, l, m, k);
    WellFormedConcat(fl, diag, n, m, l, a, b);
    MirrorClosedConcat(a, b);
  }

  /** A pair between two different cells holds no diagonal triplet. */
  lemma PairDiagCount(c: int, d: int, x: int)
    requires c != d
    ensures DiagCountAt(Pair(c, d), x) == 0
  {
    var ts := Pair(c, d);
    assert ts[1..][1..] == [];
  }

  lemma UpperPairDiagCount(fl: seq<seq<seq<bool>>>, n: int, m: int, l: int, i: int, j: int, k: int, ax: Axis, x: int)
    requires CellFlags(fl, n, m, l) && 0 <= i < n && 0 <= j < m && 0 <= k < l
    ensures DiagCountAt(UpperPair(fl, n, m, l, i, j, k, ax), x) == 0
  {
    var c := Flat3(n, m, i, j, k);
    assert 0 < n * m by {
      MulLe(n, 1, m);
    }
    match ax
    case X => PairDiagCount(c, c + 1, x);
    case Y => PairDiagCount(c, c + n, x);
    case Z => PairDiagCount(c, c + n * m, x);
  }

  lemma CellDiagCount3(fl: seq<seq<seq<bool>>>, diag: seq<Triplet>, n: int, m: int, l: int, i: int, j: int, k: int, x: int)
    requires MatrixInputs3(fl, diag, n, m, l) && 0 <= i < n && 0 <= j < m && 0 <= k < l
    ensures DiagCountAt(CellTriplets3(fl, diag, n, m, l, i, j, k), x) == if x == Flat3(n, m, i, j, k) then 1 else 0
  {
    Flat3Bounds(n, m, l, i, j, k);
    var c := Flat3(n, m, i, j, k);
    var head := [diag[c]];
    assert head[1..] == [];
    assert DiagCountAt(head, x) == if x == c then 1 else 0;
    if fl[i][j][k] {
      var px, py, pz := UpperPair(fl, n, m, l, i, j, k, X), UpperPair(fl, n, m, l, i, j, k, Y), UpperPair(fl, n, m, l, i, j, k, Z);
      UpperPairDiagCount(fl, n, m, l, i, j, k, X, x);
      UpperPairDiagCount(fl, n, m, l, i, j, k, Y, x);
      UpperPairDiagCount(fl, n, m, l, i, j, k, Z, x);
      DiagCountAtConcat(px, py, x);
      DiagCountAtConcat(px + py, pz, x);
      DiagCountAtConcat(head, px + py + pz, x);
    } else {
      assert CellTriplets3(fl, diag, n, m, l, i, j, k) == head;
    }
  }

  lemma {:induction false} RowPrefix3DiagCount(fl: seq<seq<seq<bool>>>, diag: seq<Triplet>, n: int, m: int, l: int,
                                               i: int, j: int, k: int, x: int, lo: int)
    requires MatrixInputs3(fl, diag, n, m, l) && 0 <= i <= n && 0 <= j < m && 0 <= k < l
    requires lo == Flat3(n, m, 0, j, k)
    ensures DiagCountAt(RowPrefix3(fl, diag, n, m, l, i, j, k), x) == if lo <= x < lo + i then 1 else 0
    decreases i
  {
    if i > 0 {
      RowPrefix3DiagCount(fl, diag, n, m, l, i - 1, j, k, x, lo);
      CellDiagCount3(fl, diag, n, m, l, i - 1, j, k, x);
      DiagCountAtConcat(RowPrefix3(fl, diag, n, m, l, i - 1, j, k), CellTriplets3(fl, diag, n, m, l, i - 1, j, k), x);
    }
  }

  /** Rows 0 .. j-1 of plane k hold one diagonal triplet for each index in
      [lo, hi), the cells of those rows. */
  lemma {:induction false} PlanePrefix3DiagCount(fl: seq<seq<seq<bool>>>, diag: seq<Triplet>, n: int, m: int, l: int,
                                                 j: int, k: int, x: int, lo: int, hi: int)
    requires MatrixInputs3(fl, diag, n, m, l) && 0 <= j <= m && 0 <= k < l
    requires lo == (n * m) * k && hi == lo + n * j
    ensures DiagCountAt(PlanePrefix3(fl, diag, n, m, l, j, k), x) == if lo <= x < hi then 1 else 0
    decreases j
  {
    if j > 0 {
      var a, b := PlanePrefix3(fl, diag, n, m, l, j - 1, k), RowPrefix3(fl, diag, n, m, l, n, j - 1, k);
      var mid := lo + n * (j - 1);
      MulSucc(n, j - 1);
      MulLe(n, 0, j - 1);
      PlanePrefix3DiagCount(fl, diag, n, m, l, j - 1, k, x, lo, mid);
      RowPrefix3DiagCount(fl, diag, n, m, l, n, j - 1, k, x, mid);
      DiagCountAtConcat(a, b, x);
    }
  }

  /** Planes 0 .. k-1 hold one diagonal triplet for each index below hi, the
      cells of those planes. */
  lemma {:induction false} Planes3DiagCount(fl: seq<seq<seq<bool>>>, diag: seq<Triplet>, n: int, m: int, l: int,
                                            k: int, x: int, hi: int)
    requires MatrixInputs3(fl, diag, n, m, l) && 0 <= k <= l && 0 <= x
    requires hi == (n * m) * k
    ensures DiagCountAt(Planes3(fl, diag, n, m, l, k), x) == if x < hi then 1 else 0
    decreases k
  {
    if k > 0 {
      var a, b := Planes3(fl, diag, n, m, l, k - 1), PlanePrefix3(fl, diag, n, m, l, m, k - 1);
      var plane := n * m;
      var mid := plane * (k - 1);
      MulPred(plane, k);
      assert 0 < plane by {
        MulLe(n, 1, m);
      }
      assert 0 <= mid by {
        MulLe(plane, 0, k - 1);
      }
      Planes3DiagCount(fl, diag, n, m, l, k - 1, x, mid);
      PlanePrefix3DiagCount(fl, diag, n, m, l, m, k - 1, x, mid, hi);
      DiagCountAtConcat(a, b, x);
    }
  }

  lemma MulPred(a: int, k: int)
    ensures a * (k - 1) + a == a * k
  {
  }

  /** The pressure matrix's triplets: all indices below n*m*l, every -1 entry
      mirrored, off-diagonal entries only between fluid cells adjacent along an
      axis, and exactly one diagonal triplet for every cell, fluid or not (its
      A_diag_ entry). */
  lemma MatrixShape3(fl: seq<seq<seq<bool>>>, diag: seq<Triplet>, n: int, m: int, l: int)
    requires MatrixInputs3(fl, diag, n, m, l)
    ensures AllWellFormed3(fl, diag, n, m, l, MatrixTriplets3(fl, diag, n, m, l))
    ensures MirrorClosed(MatrixTriplets3(fl, diag, n, m, l))
    ensures forall x | 0 <= x < n * m * l :: DiagCountAt(MatrixTriplets3(fl, diag, n, m, l), x) == 1
  {
    Planes3Facts(fl, diag, n, m, l, l);
    forall x | 0 <= x < n * m * l
      ensures DiagCountAt(MatrixTriplets3(fl, diag, n, m, l), x) == 1
    {
      Planes3DiagCount(fl, diag, n, m, l, l, x, n * m * l);
    }
  }

  // ---------------------------------------------------------------------------
  // Completeness of the triplet list: every pair of fluid cells adjacent along
  // an axis is linked by both -1 entries.

  /** The first i cells of row (j,k) are a prefix of the first i+1. */
  lemma RowPrefixGrows3(fl: seq<seq<seq<bool>>>, diag: seq<Triplet>, n: int, m: int, l: int, j: int, k: int, i: int, next: int, t: Triplet)
    requires MatrixInputs3(fl, diag, n, m, l) && 0 <= i < n && 0 <= j < m && 0 <= k < l && next == i + 1
    requires t in RowPrefix3(fl, diag, n, m, l, i, j, k) || t in CellTriplets3(fl, diag, n, m, l, i, j, k)
    ensures t in RowPrefix3(fl, diag, n, m, l, next, j, k)
  {
    TripletInConcat(t, RowPrefix3(fl, diag, n, m, l, i, j, k), CellTriplets3(fl, diag, n, m, l, i, j, k));
  }

  /** A triplet pushed for cell (i,j,k) is in the row prefix of any later i'. */
  lemma {:induction false} CellInRowPrefix3(fl: seq<seq<seq<bool>>>, diag: seq<Triplet>, n: int, m: int, l: int,
                                            i: int, i': int, j: int, k: int, t: Triplet)
    requires MatrixInputs3(fl, diag, n, m, l) && 0 <= i < i' <= n && 0 <= j < m && 0 <= k < l
    requires t in CellTriplets3(fl, diag, n, m, l, i, j, k)
    ensures t in RowPrefix3(fl, diag, n, m, l, i', j, k)
    decreases i'
  {
    if i' == i + 1 {
      RowPrefixGrows3(fl, diag, n, m, l, j, k, i, i', t);
    } else {
      var prev := i' - 1;
      CellInRowPrefix3(fl, diag, n, m, l, i, prev, j, k, t);
      RowPrefixGrows3(fl, diag, n, m, l, j, k, prev, i', t);
    }
  }

  /** The first j rows of plane k are a prefix of the first j+1. */
  lemma PlanePrefixGrows3(fl: seq<seq<seq<bool>>>, diag: seq<Triplet>, n: int, m: int, l: int, k: int, j: int, next: int, t: Triplet)
    requires MatrixInputs3(fl, diag, n, m, l) && 0 <= j < m && 0 <= k < l && next == j + 1
    requires t in PlanePrefix3(fl, diag, n, m, l, j, k) || t in RowPrefix3(fl, diag, n, m, l, n, j, k)
    ensures t in PlanePrefix3(fl, diag, n, m, l, next, k)
  {
    TripletInConcat(t, PlanePrefix3(fl, diag, n, m, l, j, k), RowPrefix3(fl, diag, n, m, l, n, j, k));
  }

  /** A triplet pushed for row j of plane k is in the plane prefix of any later j'. */
  lemma {:induction false} RowInPlanePrefix3(fl: seq<seq<seq<bool>>>, diag: seq<Triplet>, n: int, m: int, l: int,
                                             j: int, j': int, k: int, t: Triplet)
    requires MatrixInputs3(fl, diag, n, m, l) && 0 <= j < j' <= m && 0 <= k < l
    requires t in RowPrefix3(fl, diag, n, m, l, n, j, k)
    ensures t in PlanePrefix3(fl, diag, n, m, l, j', k)
    decreases j'
  {
    if j' == j + 1 {
      PlanePrefixGrows3(fl, diag, n, m, l, k, j, j', t);
    } else {
      var prev := j' - 1;
      RowInPlanePrefix3(fl, diag, n, m, l, j, prev, k, t);
      PlanePrefixGrows3(fl, diag, n, m, l, k, prev, j', t);
    }
  }

  /** The first k planes are a prefix of the first k+1. */
  lemma PlanesGrow3(fl: seq<seq<seq<bool>>>, diag: seq<Triplet>, n: int, m: int, l: int, k: int, next: int, t: Triplet)
    requires MatrixInputs3(fl, diag, n, m, l) && 0 <= k < l && next == k + 1
    requires t in Planes3(fl, diag, n, m, l, k) || t in PlanePrefix3(fl, diag, n, m, l, m, k)
    ensures t in Planes3(fl, diag, n, m, l, next)
  {
    TripletInConcat(t, Planes3(fl, diag, n, m, l, k), PlanePrefix3(fl, diag, n, m, l, m, k));
  }

  /** A triplet pushed for plane k is in the first k' planes for any later k'. */
  lemma {:induction false} PlaneInPlanes3(fl: seq<seq<seq<bool>>>, diag: seq<Triplet>, n: int, m: int, l: int,
                                          k: int, k': int, t: Triplet)
    requires MatrixInputs3(fl, diag, n, m, l) && 0 <= k < k' <= l
    requires t in PlanePrefix3(fl, diag, n, m, l, m, k)
    ensures t in Planes3(fl, diag, n, m, l, k')
    decreases k'
  {
    if k' == k + 1 {
      PlanesGrow3(fl, diag, n, m, l, k, k', t);
    } else {
      var prev := k' - 1;
      PlaneInPlanes3(fl, diag, n, m, l, k, prev, t);
      PlanesGrow3(fl, diag, n, m, l, prev, k', t);
    }
  }

  /** Every triplet pushed for cell (i,j,k) is in the whole list. */
  lemma CellInMatrix3(fl: seq<seq<seq<bool>>>, diag: seq<Triplet>, n: int, m: int, l: int,
                      i: int, j: int, k: int, t: Triplet)
    requires MatrixInputs3(fl, diag, n, m, l) && 0 <= i < n && 0 <= j < m && 0 <= k < l
    requires t in CellTriplets3(fl, diag, n, m, l, i, j, k)
    ensures t in MatrixTriplets3(fl, diag, n, m, l)
  {
    CellInRowPrefix3(fl, diag, n, m, l, i, n, j, k, t);
    RowInPlanePrefix3(fl, diag, n, m, l, j, m, k, t);
    PlaneInPlanes3(fl, diag, n, m, l, k, l, t);
  }

  /** Two fluid cells adjacent along an axis get both -1 entries. */
  lemma FluidNeighboursLinked3(fl: seq<seq<seq<bool>>>, diag: seq<Triplet>, n: int, m: int, l: int,
                               i: int, j: int, k: int, i': int, j': int, k': int)
    requires MatrixInputs3(fl, diag, n, m, l) && 0 <= i < n && 0 <= j < m && 0 <= k < l
    requires 0 <= i' < n && 0 <= j' < m && 0 <= k' < l && fl[i][j][k] && fl[i'][j'][k']
    requires (i', j', k') == (i + 1, j, k) || (i', j', k') == (i, j + 1, k) || (i', j', k') == (i, j, k + 1)
    ensures var c, d := Flat3(n, m, i, j, k), Flat3(n, m, i', j', k');
      Triplet(c, d, -1.0) in MatrixTriplets3(fl, diag, n, m, l)
      && Triplet(d, c, -1.0) in MatrixTriplets3(fl, diag, n, m, l)
  {
    var c, d := Flat3(n, m, i, j, k), Flat3(n, m, i', j', k');
    Flat3Steps(n, m, i, j, k);
    var ax := if i' == i + 1 then X else if j' == j + 1 then Y else Z;
    assert UpperPair(fl, n, m, l, i, j, k, ax) == Pair(c, d);
    assert Pair(c, d) <= NeighbourPairs(fl, n, m, l, i, j, k)
      || Pair(c, d) == NeighbourPairs(fl, n, m, l, i, j, k)[|UpperPair(fl, n, m, l, i, j, k, X)|..][..2]
      || Triplet(c, d, -1.0) in NeighbourPairs(fl, n, m, l, i, j, k);
    assert Triplet(c, d, -1.0) in CellTriplets3(fl, diag, n, m, l, i, j, k);
    assert Triplet(d, c, -1.0) in CellTriplets3(fl, diag, n, m, l, i, j, k);
    CellInMatrix3(fl, diag, n, m, l, i, j, k, Triplet(c, d, -1.0));
    CellInMatrix3(fl, diag, n, m, l, i, j, k, Triplet(d, c, -1.0));
  }

  /** A link between fluid neighbours, with its witness cell, is in the list
      in both directions. */
  lemma LinkedAtInMatrix3(fl: seq<seq<seq<bool>>>, diag: seq<Triplet>, n: int, m: int, l: int,
                          r: int, c: int, i: int, j: int, k: int)
    requires MatrixInputs3(fl, diag, n, m, l) && LinkedAt(fl, n, m, l, r, c, i, j, k)
    ensures Triplet(r, c, -1.0) in MatrixTriplets3(fl, diag, n, m, l)
    ensures Triplet(c, r, -1.0) in MatrixTriplets3(fl, diag, n, m, l)
  {
    Flat3Steps(n, m, i, j, k);
    if i + 1 < n && c == r + 1 && fl[i + 1][j][k] {
      FluidNeighboursLinked3(fl, diag, n, m, l, i, j, k, i + 1, j, k);
    } else if j + 1 < m && c == r + n && fl[i][j + 1][k] {
      FluidNeighboursLinked3(fl, diag, n, m, l, i, j, k, i, j + 1, k);
    } else {
      FluidNeighboursLinked3(fl, diag, n, m, l, i, j, k, i, j, k + 1);
    }
  }

  /** The off-diagonal entries of the pressure matrix are exactly the -1
      links between fluid cells adjacent along an axis, in both directions. */
  lemma MatrixLinksExactly3(fl: seq<seq<seq<bool>>>, diag: seq<Triplet>, n: int, m: int, l: int, r: int, c: int)
    requires MatrixInputs3(fl, diag, n, m, l) && r != c
    ensures Triplet(r, c, -1.0) in MatrixTriplets3(fl, diag, n, m, l)
            <==> Linked3(fl, n, m, l, r, c) || Linked3(fl, n, m, l, c, r)
  {
    var ts := MatrixTriplets3(fl, diag, n, m, l);
    if Triplet(r, c, -1.0) in ts {
      MatrixShape3(fl, diag, n, m, l);
      var p :| 0 <= p < |ts| && ts[p] == Triplet(r, c, -1.0);
      assert WellFormed3(fl, diag, n, m, l, ts[p]);
    }
    if Linked3(fl, n, m, l, r, c) {
      var i, j, k :| LinkedAt(fl, n, m, l, r, c, i, j, k);
      LinkedAtInMatrix3(fl, diag, n, m, l, r, c, i, j, k);
    }
    if Linked3(fl, n, m, l, c, r) {
      var i, j, k :| LinkedAt(fl, n, m, l, c, r, i, j, k);
      LinkedAtInMatrix3(fl, diag, n, m, l, c, r, i, j, k);
    }
  }

  /** Everything the triplet list of compute_pressure_matrix is: well formed
      and mirror closed, one diagonal entry per cell, and a -1 entry between
      two cells exactly when they are fluid neighbours along an axis. */
  lemma MatrixTriplets3Exact(fl: seq<seq<seq<bool>>>, diag: seq<Triplet>, n: int, m: int, l: int)
    requires MatrixInputs3(fl, diag, n, m, l)
    ensures AllWellFormed3(fl, diag, n, m, l, MatrixTriplets3(fl, diag, n, m, l))
    ensures MirrorClosed(MatrixTriplets3(fl, diag, n, m, l))
    ensures forall x | 0 <= x < n * m * l :: DiagCountAt(MatrixTriplets3(fl, diag, n, m, l), x) == 1
    ensures forall r, c | r != c :: Triplet(r, c, -1.0) in MatrixTriplets3(fl, diag, n, m, l)
              <==> Linked3(fl, n, m, l, r, c) || Linked3(fl, n, m, l, c, r)
  {
    MatrixShape3(fl, diag, n, m, l);
    forall r, c | r != c
      ensures Triplet(r, c, -1.0) in MatrixTriplets3(fl, diag, n, m, l)
              <==> Linked3(fl, n, m, l, r, c) || Linked3(fl, n, m, l, c, r)
    {
      MatrixLinksExactly3(fl, diag, n, m, l, r, c);
    }
  }
}
