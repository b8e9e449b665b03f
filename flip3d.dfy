/**
 * The 3D FLIP engine: particles in an array, a Mac3d grid, and the phases of
 * one step as methods that update the grid buffers and the particles in place.
 * The pressure matrix is kept as its triplet list and the right-hand side as a
 * sequence; the linear solve is replaced by the pressure vector handed to
 * DoPressures.
 */
module Flip3dEngine {
  import opened Common
  import opened Mac3dGrid
  import opened Flip2dSpec
  import opened Flip3dSpec
  import opened Extrapolation3d

  /** The index of a face along its own axis. */
  function Normal(ax: Axis, a: int, b: int, c: int): int
  {
    match ax
    case X => a
    case Y => b
    case Z => c
  }

  /** The cell below face (a,b,c) of family ax, on the lower side along ax. */
  function BelowCell(ax: Axis, a: int, b: int, c: int): (int, int, int)
  {
    match ax
    case X => (a - 1, b, c)
    case Y => (a, b - 1, c)
    case Z => (a, b, c - 1)
  }

  /** The upper face along ax of cell (i,j,k). */
  function UpperFace(ax: Axis, i: int, j: int, k: int): (int, int, int)
  {
    match ax
    case X => (i + 1, j, k)
    case Y => (i, j + 1, k)
    case Z => (i, j, k + 1)
  }

  /** The face of family ax with index n along ax, p along the first other
      axis and o along the second: the order of the outer-boundary loops. */
  function Face(ax: Axis, n: int, p: int, o: int): (int, int, int)
  {
    match ax
    case X => (n, p, o)
    case Y => (p, n, o)
    case Z => (p, o, n)
  }

  /** The indices of face (a,b,c) of family ax along the inner and the outer
      loop of the outer-boundary loops: the inverse of Face. */
  function Tangents(ax: Axis, a: int, b: int, c: int): (int, int)
  {
    match ax
    case X => (b, c)
    case Y => (a, c)
    case Z => (a, b)
  }

  /** The entry density*dx*d/dt of compute_pressure_rhs for a fluid cell. */
  function ScaledRhs(density: real, dx: real, dij: real, dt: real): real
    requires dt != 0.0
  {
    density * dx * dij / dt
  }

  /** The Euler midpoint pos + (dt/2)*vel of advance_particles. */
  function Midpoint(pos: Vec3, vel: Vec3, dt: real): Vec3
  {
    Add(pos, Scale(0.5 * dt, vel))
  }

  /** The window test of advance_particles on all three axes. */
  predicate OutsideGrid(q: Vec3, cs: Vec3, size: Vec3)
  {
    OutOfWindow(q.x, cs.x, size.x) || OutOfWindow(q.y, cs.y, size.y) || OutOfWindow(q.z, cs.z, size.z)
  }

  /** The clamp of advance_particles on all three axes. */
  function Clamped(q: Vec3, cs: Vec3, size: Vec3): Vec3
  {
    Vec3(ClampCoord(q.x, cs.x, size.x), ClampCoord(q.y, cs.y, size.y), ClampCoord(q.z, cs.z, size.z))
  }

  /** The pull-back of advance_particles on all three axes. */
  function PulledBack(prev: (int, int, int), next: (int, int, int), cs: Vec3, q: Vec3): Vec3
  {
    Vec3(PullBack(prev.0, next.0, cs.x, q.x), PullBack(prev.1, next.1, cs.y, q.y), PullBack(prev.2, next.2, cs.z, q.z))
  }

  /** On x and on y, a pulled-back coordinate lies strictly between the
      probed and the current cell index whenever the two differ. */
  lemma PulledBackBetween(prev: (int, int, int), next: (int, int, int), cs: Vec3, q: Vec3)
    requires 0.0 < cs.x && 0.0 < cs.y
    ensures var r := PulledBack(prev, next, cs, q);
      && (prev.0 > next.0 ==> next.0 as real * cs.x < r.x < prev.0 as real * cs.x)
      && (prev.0 < next.0 ==> prev.0 as real * cs.x < r.x < next.0 as real * cs.x)
      && (prev.1 > next.1 ==> next.1 as real * cs.y < r.y < prev.1 as real * cs.y)
      && (prev.1 < next.1 ==> prev.1 as real * cs.y < r.y < next.1 as real * cs.y)
  {
    PullBackBetween(prev.0, next.0, cs.x, q.x);
    PullBackBetween(prev.1, next.1, cs.y, q.y);
  }

  /** Blend3 on each axis. */
  function Blend3Vec(alpha: real, atEdge: bool, old_: Vec3, new_: Vec3, star: Vec3): Vec3
  {
    Vec3(Blend3(alpha, atEdge, old_.x, new_.x, star.x),
         Blend3(alpha, atEdge, old_.y, new_.y, star.y),
         Blend3(alpha, atEdge, old_.z, new_.z, star.z))
  }

  /** Per axis the blend is the mix (1-f)*PIC + f*FLIP of the FLIP share f;
      at the edge with alpha >= 1/2 it is pure PIC; a particle already moving
      with an unchanged grid keeps its velocity. */
  lemma Blend3VecFacts(alpha: real, atEdge: bool, old_: Vec3, new_: Vec3, star: Vec3)
    ensures forall ax :: var f := FlipShare(alpha, atEdge);
      Comp(Blend3Vec(alpha, atEdge, old_, new_, star), ax)
      == (1.0 - f) * Comp(new_, ax) + f * (Comp(old_, ax) + (Comp(new_, ax) - Comp(star, ax)))
    ensures atEdge && 0.5 <= alpha ==> Blend3Vec(alpha, atEdge, old_, new_, star) == new_
    ensures new_ == old_ && star == old_ ==> Blend3Vec(alpha, atEdge, old_, new_, star) == old_
  {
    forall ax
      ensures var f := FlipShare(alpha, atEdge);
        Comp(Blend3Vec(alpha, atEdge, old_, new_, star), ax)
        == (1.0 - f) * Comp(new_, ax) + f * (Comp(old_, ax) + (Comp(new_, ax) - Comp(star, ax)))
    {
      Blend3IsFlipPicMix(alpha, atEdge, Comp(old_, ax), Comp(new_, ax), Comp(star, ax));
    }
    if atEdge && 0.5 <= alpha {
      Blend3EdgeIsPic(alpha, old_.x, new_.x, star.x);
      Blend3EdgeIsPic(alpha, old_.y, new_.y, star.y);
      Blend3EdgeIsPic(alpha, old_.z, new_.z, star.z);
    }
    if new_ == old_ && star == old_ {
      Blend3Steady(alpha, atEdge, old_.x);
      Blend3Steady(alpha, atEdge, old_.y);
      Blend3Steady(alpha, atEdge, old_.z);
    }
  }

  /** The grid buffers read by grid_to_particle and advance_particles, as
      values: the three velocity fields, their saved copies and the solid
      flags. */
  datatype GridState = GridState(u: seq<seq<seq<real>>>, v: seq<seq<seq<real>>>, w: seq<seq<seq<real>>>,
                                 uStar: seq<seq<seq<real>>>, vStar: seq<seq<seq<real>>>, wStar: seq<seq<seq<real>>>,
                                 solid: seq<seq<seq<bool>>>)

  class Flip3d {
    const grid: Mac3d
    const particles: array<Particle>
    const fluidDensity: real
    const gravityMag: real
    const alpha: real
    /** The poly6 constant 315/(64*pi*h^9) of compute_weight for h = 2*dx. */
    const kernelCoeff: real
    /** The triplet list of the pressure matrix A_. */
    var A: seq<Triplet>
    /** The right-hand side d_ of the pressure equations. */
    var d: seq<real>

    predicate Valid()
    {
      grid.Valid() && 0.0 < kernelCoeff
    }

    constructor (ps: array<Particle>, g: Mac3d, density: real, gravity: real, alpha0: real, coeff: real)
      requires g.Valid() && 0.0 < coeff
      ensures Valid()
      ensures particles == ps && grid == g && fluidDensity == density && gravityMag == gravity
      ensures alpha == alpha0 && kernelCoeff == coeff
      ensures A == [] && d == []
    {
      particles, grid := ps, g;
      fluidDensity, gravityMag, alpha, kernelCoeff := density, gravity, alpha0, coeff;
      A, d := [], [];
    }

    // -------------------------------------------------------------------------
    // compute_timestep

    /** compute_timestep: the CFL step of the particles' largest velocity
        components, never above dt and positive for a positive dt. */
    method ComputeTimestep(dt: real) returns (dtNew: real)
      requires Valid()
      ensures dtNew == CflTimestep(dt, grid.cellSizeX, grid.cellSizeY, grid.cellSizeZ,
        LargestComponent(particles[..], X), LargestComponent(particles[..], Y), LargestComponent(particles[..], Z))
      ensures dtNew <= dt && (0.0 < dt ==> 0.0 < dtNew)
    {
      var uMax, vMax, wMax := LargestComponents();
      if uMax == 0.0 {
        dtNew := dt;
      } else {
        dtNew := Abs(grid.cellSizeX / uMax);
        if dtNew > dt {
          dtNew := dt;
        }
      }
      if vMax == 0.0 {
        dtNew := dt;
      } else {
        var tmp := Abs(grid.cellSizeY / vMax);
        if tmp < dtNew {
          dtNew := tmp;
        }
        if dtNew > dt {
          dtNew := dt;
        }
      }
      if wMax == 0.0 {
        dtNew := dt;
      } else {
        var tmp := Abs(grid.cellSizeZ / wMax);
        if tmp < dtNew {
          dtNew := tmp;
        }
        if dtNew > dt {
          dtNew := dt;
        }
      }
      TimestepBounds(dt, grid.cellSizeX, grid.cellSizeY, grid.cellSizeZ, uMax, vMax, wMax);
    }

    /** The loop of compute_timestep: the component of largest magnitude along
        each axis, over all particles. */
    method LargestComponents() returns (uMax: real, vMax: real, wMax: real)
      ensures uMax == LargestComponent(particles[..], X)
      ensures vMax == LargestComponent(particles[..], Y)
      ensures wMax == LargestComponent(particles[..], Z)
    {
      uMax, vMax, wMax := 0.0, 0.0, 0.0;
      var n := 0;
      while n < particles.Length
        invariant 0 <= n <= particles.Length
        invariant uMax == LargestComponent(particles[..n], X)
        invariant vMax == LargestComponent(particles[..n], Y)
        invariant wMax == LargestComponent(particles[..n], Z)
      {
        var vel := particles[n].vel;
        assert particles[..n + 1][..n] == particles[..n];
        if Abs(vel.x) > Abs(uMax) {
          uMax := vel.x;
        }
        if Abs(vel.y) > Abs(vMax) {
          vMax := vel.y;
        }
        if Abs(vel.z) > Abs(wMax) {
          wMax := vel.z;
        }
        n := n + 1;
      }
      assert particles[..particles.Length] == particles[..];
    }

    // -------------------------------------------------------------------------
    // compute_velocity_field

    predicate PositiveCells()
    {
      0.0 < grid.cellSizeX && 0.0 < grid.cellSizeY && 0.0 < grid.cellSizeZ
    }

    /** The kernel radius h = 2*dx of compute_velocity_field. */
    function Radius(): real
    {
      2.0 * grid.cellSizeX
    }

    /** h in cells along each axis, rounded up. */
    function Reach(): (int, int, int)
      requires PositiveCells()
    {
      (Ceil(Radius() / grid.cellSizeX), Ceil(Radius() / grid.cellSizeY), Ceil(Radius() / grid.cellSizeZ))
    }

    lemma ReachPositive()
      requires PositiveCells()
      ensures 1 <= Reach().0 && 1 <= Reach().1 && 1 <= Reach().2
    {
      assert 0.0 < Radius() / grid.cellSizeX && 0.0 < Radius() / grid.cellSizeY && 0.0 < Radius() / grid.cellSizeZ;
    }

    /** The grid point compute_velocity_field uses for face (i,j,k) of family
        ax: the centre of the left, lower or farthest side of cell (i,j,k). */
    function FacePoint(ax: Axis, i: int, j: int, k: int): Vec3
    {
      var x, y, z := i as real * grid.cellSizeX, j as real * grid.cellSizeY, k as real * grid.cellSizeZ;
      match ax
      case X => Vec3((i as real - 0.5) * grid.cellSizeX, y, z)
      case Y => Vec3(x, (j as real - 0.5) * grid.cellSizeY, z)
      case Z => Vec3(x, y, (k as real - 0.5) * grid.cellSizeZ)
    }

    /** Index (a,b,c) lies in the block the loops visit around cell `cell`:
        from cell - Reach() to cell + Reach() + 1 on each axis. */
    predicate InBlock(cell: (int, int, int), a: int, b: int, c: int)
      requires PositiveCells()
    {
      var r := Reach();
      cell.0 - r.0 <= a <= cell.0 + r.0 + 1 && cell.1 - r.1 <= b <= cell.1 + r.1 + 1
      && cell.2 - r.2 <= c <= cell.2 + r.2 + 1
    }

    /** The weight particle p adds to face (a,b,c) of family ax: the kernel of
        compute_weight when the face is in the particle's block and within h of
        it, otherwise nothing. */
    function Kernel(p: Particle, ax: Axis, a: int, b: int, c: int): real
    {
      if PositiveCells() && InBlock(grid.IndexFromCoord(p.pos), a, b, c)
      then AcceptedWeight(kernelCoeff, p.pos, FacePoint(ax, a, b, c), Radius()) else 0.0
    }

    /** The weighted velocity component particle p adds to face (a,b,c). */
    function Momentum(p: Particle, ax: Axis, a: int, b: int, c: int): real
    {
      Share(KernelAt(ax, a, b, c), ax, p)
    }

    /** The kernel of face (a,b,c) as a function of the particle, the form the
        sums of the particle-to-grid transfer take. */
    function KernelAt(ax: Axis, a: int, b: int, c: int): Particle -> real
    {
      p => Kernel(p, ax, a, b, c)
    }

    /** A face outside the block of particle p gets nothing from it. */
    lemma KernelOutsideBlock(p: Particle, ax: Axis, a: int, b: int, c: int)
      requires PositiveCells() && !InBlock(grid.IndexFromCoord(p.pos), a, b, c)
      ensures Kernel(p, ax, a, b, c) == 0.0 && Momentum(p, ax, a, b, c) == 0.0
    {}

    /** Inside the block of p, the kernel is the weight of compute_weight
        when the face point passes the threshold test. */
    lemma KernelInBlock(p: Particle, ax: Axis, a: int, b: int, c: int)
      requires PositiveCells() && InBlock(grid.IndexFromCoord(p.pos), a, b, c)
      ensures var gc := FacePoint(ax, a, b, c);
        Kernel(p, ax, a, b, c) == AcceptedWeight(kernelCoeff, p.pos, gc, Radius())
        && Momentum(p, ax, a, b, c) == AcceptedWeight(kernelCoeff, p.pos, gc, Radius()) * Comp(p.vel, ax)
    {}

    /** Every face's weight is nonnegative. */
    lemma WeightNonnegative(ps: seq<Particle>, ax: Axis, a: int, b: int, c: int)
      requires Valid()
      ensures KernelSum(KernelAt(ax, a, b, c), ps) >= 0.0
    {
      WeightNonnegativeEach(ps, ax, a, b, c);
      KernelSumNonnegative(KernelAt(ax, a, b, c), ps);
    }

    /** A face strictly within h of a particle whose block holds it gets a
        positive weight, so normalisation marks it visited. */
    lemma WeightPositive(ps: seq<Particle>, n: int, ax: Axis, a: int, b: int, c: int)
      requires Valid() && 0 <= n < |ps|
      requires InBlock(grid.IndexFromCoord(ps[n].pos), a, b, c) && Dist2(ps[n].pos, FacePoint(ax, a, b, c)) < Radius() * Radius()
      ensures KernelSum(KernelAt(ax, a, b, c), ps) > 0.0
    {
      WeightNonnegativeEach(ps, ax, a, b, c);
      var diff := Radius() * Radius() - Dist2(ps[n].pos, FacePoint(ax, a, b, c));
      assert 0.0 < diff * diff * diff by {
        assert 0.0 < diff * diff;
      }
      assert KernelAt(ax, a, b, c)(ps[n]) == kernelCoeff * (diff * diff * diff);
      KernelSumPositive(KernelAt(ax, a, b, c), ps, n);
    }

    lemma WeightNonnegativeEach(ps: seq<Particle>, ax: Axis, a: int, b: int, c: int)
      requires Valid()
      ensures forall n | 0 <= n < |ps| :: KernelAt(ax, a, b, c)(ps[n]) >= 0.0
    {
      forall n | 0 <= n < |ps|
        ensures KernelAt(ax, a, b, c)(ps[n]) >= 0.0
      {
        var gc := FacePoint(ax, a, b, c);
        if InBlock(grid.IndexFromCoord(ps[n].pos), a, b, c) && CheckThreshold3(ps[n].pos, gc, Radius()) {
          AcceptedWeightNonnegative(kernelCoeff, ps[n].pos, gc, Radius());
        }
      }
    }

    /** A face outside every particle's block gets neither weight nor velocity. */
    lemma UnreachedFace(ps: seq<Particle>, ax: Axis, a: int, b: int, c: int)
      requires PositiveCells()
      requires forall n | 0 <= n < |ps| :: !InBlock(grid.IndexFromCoord(ps[n].pos), a, b, c)
      ensures KernelSum(KernelAt(ax, a, b, c), ps) == 0.0 && WeightedMean(KernelAt(ax, a, b, c), ax, ps) == 0.0
    {
      forall n | 0 <= n < |ps|
        ensures KernelAt(ax, a, b, c)(ps[n]) == 0.0
      {
        KernelOutsideBlock(ps[n], ax, a, b, c);
      }
      UnreachedFaceEmpty(KernelAt(ax, a, b, c), ax, ps);
    }

    /** Some particle of ps lies in cell x. */
    predicate Occupied(ps: seq<Particle>, x: (int, int, int))
    {
      exists n | 0 <= n < |ps| :: grid.IndexFromCoord(ps[n].pos) == x
    }

    /** Every particle lies in a cell of the grid, as is_fluid and set_fluid
        need. */
    predicate ParticlesInGrid()
      reads particles
    {
      forall n | 0 <= n < particles.Length ::
        var x := grid.IndexFromCoord(particles[n].pos); grid.InCell(x.0, x.1, x.2)
    }

    /** vis has the shape of face family ax. */
    predicate FlagsShaped(ax: Axis, vis: array3<bool>)
    {
      vis.Length0 == grid.W(ax) && vis.Length1 == grid.H(ax) && vis.Length2 == grid.D(ax)
    }

    /** Face family ax after the particle-to-grid transfer, with the visited
        flags vis: every face's weight is the particles' summed kernel, the
        face is visited exactly when that is nonzero, and it holds the
        particles' weighted mean velocity component. */
    ghost predicate Transferred(ax: Axis, vis: array3<bool>, ps: seq<Particle>)
      reads grid.Vel(ax), grid.Weights(ax), vis
    {
      grid.Shaped(grid.Vel(ax), ax) && grid.Shaped(grid.Weights(ax), ax) && FlagsShaped(ax, vis)
      && forall a, b, c | grid.InFace(ax, a, b, c) ::
        grid.Weights(ax)[a, b, c] == KernelSum(KernelAt(ax, a, b, c), ps)
        && (vis[a, b, c] <==> KernelSum(KernelAt(ax, a, b, c), ps) != 0.0)
        && grid.Vel(ax)[a, b, c] == WeightedMean(KernelAt(ax, a, b, c), ax, ps)
    }

    /** Face family ax at the end of compute_velocity_field, with the visited
        flags vis and the normalised field norm: weights and flags are those
        of the transfer, norm holds the weighted means, a visited face keeps
        its mean and any other face holds the mean of its visited neighbours
        in norm. */
    ghost predicate Extrapolated(ax: Axis, field: array3<real>, vis: array3<bool>, norm: seq<seq<seq<real>>>, ps: seq<Particle>)
      reads field, grid.weightsU, grid.weightsV, grid.weightsW, vis
    {
      grid.Shaped(field, ax) && grid.Shaped(grid.Weights(ax), ax) && FlagsShaped(ax, vis)
      && forall a, b, c | grid.InFace(ax, a, b, c) ::
        grid.Weights(ax)[a, b, c] == KernelSum(KernelAt(ax, a, b, c), ps)
        && (vis[a, b, c] <==> KernelSum(KernelAt(ax, a, b, c), ps) != 0.0)
        && At(norm, a, b, c) == WeightedMean(KernelAt(ax, a, b, c), ax, ps)
        && field[a, b, c] == if vis[a, b, c] then WeightedMean(KernelAt(ax, a, b, c), ax, ps)
                             else NeighbourMean(vis, norm, a, b, c)
    }

    /** compute_velocity_field: velocities and weights are zeroed, the fluid
        flags cleared, the particles splatted into the faces of their blocks,
        the fields normalised and extrapolated. Afterwards a cell is fluid
        exactly when it holds a particle and is not solid, and each face
        family is as Extrapolated describes. The visited flags and the
        normalised fields are returned so that this contract can name them. */
    method ComputeVelocityField()
      returns (visU: array3<bool>, visV: array3<bool>, visW: array3<bool>,
               ghost normU: seq<seq<seq<real>>>, ghost normV: seq<seq<seq<real>>>, ghost normW: seq<seq<seq<real>>>)
      requires Valid() && ParticlesInGrid()
      modifies grid.u, grid.v, grid.w, grid.weightsU, grid.weightsV, grid.weightsW, grid.fluid
      ensures fresh(visU) && fresh(visV) && fresh(visW)
      ensures Classified(particles[..])
      ensures Extrapolated(X, grid.u, visU, normU, particles[..]) && Extrapolated(Y, grid.v, visV, normV, particles[..])
        && Extrapolated(Z, grid.w, visW, normW, particles[..])
    {
      visU, visV, visW := ParticleToGrid();
      normU := ExtrapolateFamily(X, visU);
      normV := ExtrapolateFamily(Y, visV);
      normW := ExtrapolateFamily(Z, visW);
    }

    /** Lines 123-220 of compute_velocity_field: zeroing, the visited flags,
        fluid classification, splatting and normalisation. */
    method ParticleToGrid() returns (visU: array3<bool>, visV: array3<bool>, visW: array3<bool>)
      requires Valid() && ParticlesInGrid()
      modifies grid.u, grid.v, grid.w, grid.weightsU, grid.weightsV, grid.weightsW, grid.fluid
      ensures fresh(visU) && fresh(visV) && fresh(visW)
      ensures Classified(particles[..])
      ensures Transferred(X, visU, particles[..]) && Transferred(Y, visV, particles[..]) && Transferred(Z, visW, particles[..])
    {
      var h, hs;
      visU, visV, visW, h, hs := Prepare();
      SplatParticles(h, hs);
      NormalizeAll(visU, visV, visW);
    }

    /** The set-up before the particle loop: zeroed fields, the radius h and
        its reach in cells, cleared visited flags and no fluid cell. */
    method Prepare() returns (visU: array3<bool>, visV: array3<bool>, visW: array3<bool>, h: real, hs: (int, int, int))
      requires Valid()
      modifies grid.u, grid.v, grid.w, grid.weightsU, grid.weightsV, grid.weightsW, grid.fluid
      ensures fresh(visU) && fresh(visV) && fresh(visW) && visU != visV && visU != visW && visV != visW
      ensures visU != grid.fluid && visV != grid.fluid && visW != grid.fluid
      ensures visU != grid.solid && visV != grid.solid && visW != grid.solid
      ensures Unvisited(X, visU) && Unvisited(Y, visV) && Unvisited(Z, visW)
      ensures Cleared(X) && Cleared(Y) && Cleared(Z) && NoFluid()
      ensures h == Radius() && hs == Reach()
    {
      ClearGrid();
      h := 2.0 * grid.cellSizeX;
      hs := (Ceil(h / grid.cellSizeX), Ceil(h / grid.cellSizeY), Ceil(h / grid.cellSizeZ));
      visU, visV, visW := NewFlags();
    }

    /** The three normalize_accumulated calls. */
    method NormalizeAll(visU: array3<bool>, visV: array3<bool>, visW: array3<bool>)
      requires Valid() && Accumulated(X, particles[..]) && Accumulated(Y, particles[..]) && Accumulated(Z, particles[..])
      requires Unvisited(X, visU) && Unvisited(Y, visV) && Unvisited(Z, visW)
      modifies grid.u, grid.v, grid.w, visU, visV, visW
      ensures Transferred(X, visU, particles[..]) && Transferred(Y, visV, particles[..]) && Transferred(Z, visW, particles[..])
    {
      NormalizeFamily(X, visU);
      NormalizeFamily(Y, visV);
      NormalizeFamily(Z, visW);
    }

    /** Every face of family ax has velocity and weight zero. */
    ghost predicate Cleared(ax: Axis)
      reads grid.Vel(ax), grid.Weights(ax)
    {
      grid.Shaped(grid.Vel(ax), ax) && grid.Shaped(grid.Weights(ax), ax)
      && forall a, b, c | grid.InFace(ax, a, b, c) :: grid.Vel(ax)[a, b, c] == 0.0 && grid.Weights(ax)[a, b, c] == 0.0
    }

    /** No cell is fluid. */
    ghost predicate NoFluid()
      reads grid.fluid
    {
      grid.fluid.Length0 == grid.N && grid.fluid.Length1 == grid.M && grid.fluid.Length2 == grid.L
      && forall a, b, c | grid.InCell(a, b, c) :: !grid.fluid[a, b, c]
    }

    /** set_velocities_to_zero, set_weights_to_zero and reset_fluid. */
    method ClearGrid()
      requires Valid()
      modifies grid.u, grid.v, grid.w, grid.weightsU, grid.weightsV, grid.weightsW, grid.fluid
      ensures Cleared(X) && Cleared(Y) && Cleared(Z) && NoFluid()
    {
      grid.SetVelocitiesToZero();
      grid.SetWeightsToZero();
      grid.ResetFluid();
      assert grid.Shaped(grid.Vel(X), X) && grid.Shaped(grid.Vel(Y), Y) && grid.Shaped(grid.Vel(Z), Z);
      assert grid.Shaped(grid.Weights(X), X) && grid.Shaped(grid.Weights(Y), Y) && grid.Shaped(grid.Weights(Z), Z);
    }

    /** The three visited-flag buffers, all cleared. */
    method NewFlags() returns (visU: array3<bool>, visV: array3<bool>, visW: array3<bool>)
      requires Valid()
      ensures fresh(visU) && fresh(visV) && fresh(visW) && visU != visV && visU != visW && visV != visW
      ensures Unvisited(X, visU) && Unvisited(Y, visV) && Unvisited(Z, visW)
    {
      visU := new bool[grid.N + 1, grid.M, grid.L]((i, j, k) => false);
      visV := new bool[grid.N, grid.M + 1, grid.L]((i, j, k) => false);
      visW := new bool[grid.N, grid.M, grid.L + 1]((i, j, k) => false);
    }

    /** The fluid flags after the particle loop: a cell is fluid exactly when
        it holds a particle and is not solid. */
    ghost predicate Classified(ps: seq<Particle>)
      reads grid.fluid, grid.solid
    {
      grid.fluid.Length0 == grid.N && grid.fluid.Length1 == grid.M && grid.fluid.Length2 == grid.L
      && grid.solid.Length0 == grid.N && grid.solid.Length1 == grid.M && grid.solid.Length2 == grid.L
      && forall a, b, c | grid.InCell(a, b, c) ::
        grid.fluid[a, b, c] <==> !grid.solid[a, b, c] && Occupied(ps, (a, b, c))
    }

    /** Face family ax right after the splatting: every face holds the
        particles' accumulated velocity and weight. */
    ghost predicate Accumulated(ax: Axis, ps: seq<Particle>)
      reads grid.Vel(ax), grid.Weights(ax)
    {
      grid.Shaped(grid.Vel(ax), ax) && grid.Shaped(grid.Weights(ax), ax)
      && forall a, b, c | grid.InFace(ax, a, b, c) ::
        grid.Vel(ax)[a, b, c] == MomentumSum(KernelAt(ax, a, b, c), ax, ps)
        && grid.Weights(ax)[a, b, c] == KernelSum(KernelAt(ax, a, b, c), ps)
    }

    /** Flags vis, shaped like face family ax, with no face visited. */
    ghost predicate Unvisited(ax: Axis, vis: array3<bool>)
      reads vis
    {
      FlagsShaped(ax, vis) && forall a, b, c | grid.InFace(ax, a, b, c) :: !vis[a, b, c]
    }

    /** normalize_accumulated of family ax right after the splatting. */
    method NormalizeFamily(ax: Axis, vis: array3<bool>)
      requires Valid() && Accumulated(ax, particles[..]) && Unvisited(ax, vis)
      modifies grid.Vel(ax), vis
      ensures Transferred(ax, vis, particles[..])
    {
      NormalizeAccumulated(ax, vis);
    }

    /** extrapolate_u/v/w on family ax; the normalised field is returned so
        that the contract can name it. */
    method ExtrapolateFamily(ax: Axis, vis: array3<bool>) returns (ghost norm: seq<seq<seq<real>>>)
      requires Valid() && Transferred(ax, vis, particles[..])
      modifies grid.Vel(ax)
      ensures Extrapolated(ax, grid.Vel(ax), vis, norm, particles[..])
    {
      norm := Contents(grid.Vel(ax));
      Extrapolate(grid.Vel(ax), vis);
    }

    /** The particle loop of compute_velocity_field: each particle marks its
        cell fluid unless it is solid, and is splatted into its block. */
    method SplatParticles(h: real, hs: (int, int, int))
      requires Valid() && ParticlesInGrid() && h == Radius() && hs == Reach()
      requires Cleared(X) && Cleared(Y) && Cleared(Z) && NoFluid()
      modifies grid.u, grid.v, grid.w, grid.weightsU, grid.weightsV, grid.weightsW, grid.fluid
      ensures Classified(particles[..])
      ensures Accumulated(X, particles[..]) && Accumulated(Y, particles[..]) && Accumulated(Z, particles[..])
    {
      ghost var ps := particles[..];
      var n := 0;
      assert ps[..n] == [];
      while n < particles.Length
        invariant 0 <= n <= particles.Length
        invariant forall a, b, c | grid.InCell(a, b, c) ::
          grid.fluid[a, b, c] == (!grid.solid[a, b, c] && Occupied(ps[..n], (a, b, c)))
        invariant forall ax, a, b, c | grid.InFace(ax, a, b, c) ::
          grid.Vel(ax)[a, b, c] == MomentumSum(KernelAt(ax, a, b, c), ax, ps[..n])
          && grid.Weights(ax)[a, b, c] == KernelSum(KernelAt(ax, a, b, c), ps[..n])
      {
        var p := particles[n];
        var cell := grid.IndexFromCoord(p.pos);
        MarkFluid(cell);
        SplatParticle(p, h, hs);
        assert p == ps[n];
        forall ax, a, b, c
          ensures KernelSum(KernelAt(ax, a, b, c), ps[..n + 1]) == KernelSum(KernelAt(ax, a, b, c), ps[..n]) + Kernel(p, ax, a, b, c)
          ensures MomentumSum(KernelAt(ax, a, b, c), ax, ps[..n + 1]) == MomentumSum(KernelAt(ax, a, b, c), ax, ps[..n]) + Momentum(p, ax, a, b, c)
        {
          SumsExtend(KernelAt(ax, a, b, c), ax, ps, n);
        }
        OccupiedStep(ps, n);
        n := n + 1;
      }
      assert ps[..n] == ps;
    }

    lemma OccupiedStep(ps: seq<Particle>, n: int)
      requires 0 <= n < |ps|
      ensures forall x :: Occupied(ps[..n + 1], x) <==> Occupied(ps[..n], x) || grid.IndexFromCoord(ps[n].pos) == x
    {
      forall x | Occupied(ps[..n + 1], x)
        ensures Occupied(ps[..n], x) || grid.IndexFromCoord(ps[n].pos) == x
      {
        var m :| 0 <= m < n + 1 && grid.IndexFromCoord(ps[..n + 1][m].pos) == x;
        if m < n {
          assert ps[..n][m] == ps[..n + 1][m];
        }
      }
      forall x | Occupied(ps[..n], x)
        ensures Occupied(ps[..n + 1], x)
      {
        var m :| 0 <= m < n && grid.IndexFromCoord(ps[..n][m].pos) == x;
        assert ps[..n + 1][m] == ps[..n][m];
      }
      assert ps[..n + 1][n] == ps[n];
    }

    /** The fluid test of the particle loop: a cell that is neither fluid nor
        solid becomes fluid. */
    method MarkFluid(cell: (int, int, int))
      requires Valid() && grid.InCell(cell.0, cell.1, cell.2)
      modifies grid.fluid
      ensures forall a, b, c | grid.InCell(a, b, c) ::
        grid.fluid[a, b, c] == (old(grid.fluid[a, b, c]) || ((a, b, c) == cell && !grid.solid[a, b, c]))
    {
      if !grid.IsFluid(cell.0, cell.1, cell.2) && !grid.IsSolid(cell.0, cell.1, cell.2) {
        grid.SetFluid(cell.0, cell.1, cell.2);
      }
    }

    /** The k/j/i loops of compute_velocity_field for particle p: every face
        of its block gains the particle's momentum and kernel. */
    method SplatParticle(p: Particle, h: real, hs: (int, int, int))
      requires Valid() && h == Radius() && hs == Reach()
      modifies grid.u, grid.v, grid.w, grid.weightsU, grid.weightsV, grid.weightsW
      ensures forall ax, a, b, c | grid.InFace(ax, a, b, c) ::
        grid.Vel(ax)[a, b, c] == old(grid.Vel(ax)[a, b, c]) + Momentum(p, ax, a, b, c)
        && grid.Weights(ax)[a, b, c] == old(grid.Weights(ax)[a, b, c]) + Kernel(p, ax, a, b, c)
    {
      ReachPositive();
      var cell := grid.IndexFromCoord(p.pos);
      var k := cell.2 - hs.2;
      forall ax, a, b, c | c < k
        ensures Kernel(p, ax, a, b, c) == 0.0 && Momentum(p, ax, a, b, c) == 0.0
      {
        KernelOutsideBlock(p, ax, a, b, c);
      }
      while k <= cell.2 + hs.2 + 1
        invariant cell.2 - hs.2 <= k <= cell.2 + hs.2 + 2
        invariant forall ax, a, b, c | grid.InFace(ax, a, b, c) ::
          grid.Vel(ax)[a, b, c] == old(grid.Vel(ax)[a, b, c]) + (if c < k then Momentum(p, ax, a, b, c) else 0.0)
          && grid.Weights(ax)[a, b, c] == old(grid.Weights(ax)[a, b, c]) + (if c < k then Kernel(p, ax, a, b, c) else 0.0)
      {
        SplatPlane(p, h, hs, k);
        k := k + 1;
      }
      forall ax, a, b, c | k <= c
        ensures Kernel(p, ax, a, b, c) == 0.0 && Momentum(p, ax, a, b, c) == 0.0
      {
        KernelOutsideBlock(p, ax, a, b, c);
      }
    }

    method SplatPlane(p: Particle, h: real, hs: (int, int, int), k: int)
      requires Valid() && h == Radius() && hs == Reach()
      requires grid.IndexFromCoord(p.pos).2 - hs.2 <= k <= grid.IndexFromCoord(p.pos).2 + hs.2 + 1
      modifies grid.u, grid.v, grid.w, grid.weightsU, grid.weightsV, grid.weightsW
      ensures forall ax, a, b, c | grid.InFace(ax, a, b, c) ::
        grid.Vel(ax)[a, b, c] == old(grid.Vel(ax)[a, b, c]) + (if c == k then Momentum(p, ax, a, b, c) else 0.0)
        && grid.Weights(ax)[a, b, c] == old(grid.Weights(ax)[a, b, c]) + (if c == k then Kernel(p, ax, a, b, c) else 0.0)
    {
      ReachPositive();
      var cell := grid.IndexFromCoord(p.pos);
      var j := cell.1 - hs.1;
      forall ax, a, b, c | b < j
        ensures Kernel(p, ax, a, b, c) == 0.0 && Momentum(p, ax, a, b, c) == 0.0
      {
        KernelOutsideBlock(p, ax, a, b, c);
      }
      while j <= cell.1 + hs.1 + 1
        invariant cell.1 - hs.1 <= j <= cell.1 + hs.1 + 2
        invariant forall ax, a, b, c | grid.InFace(ax, a, b, c) ::
          grid.Vel(ax)[a, b, c] == old(grid.Vel(ax)[a, b, c]) + (if c == k && b < j then Momentum(p, ax, a, b, c) else 0.0)
          && grid.Weights(ax)[a, b, c] == old(grid.Weights(ax)[a, b, c]) + (if c == k && b < j then Kernel(p, ax, a, b, c) else 0.0)
      {
        SplatRow(p, h, hs, j, k);
        j := j + 1;
      }
      forall ax, a, b, c | j <= b
        ensures Kernel(p, ax, a, b, c) == 0.0 && Momentum(p, ax, a, b, c) == 0.0
      {
        KernelOutsideBlock(p, ax, a, b, c);
      }
    }

    method SplatRow(p: Particle, h: real, hs: (int, int, int), j: int, k: int)
      requires Valid() && h == Radius() && hs == Reach()
      requires grid.IndexFromCoord(p.pos).1 - hs.1 <= j <= grid.IndexFromCoord(p.pos).1 + hs.1 + 1
      requires grid.IndexFromCoord(p.pos).2 - hs.2 <= k <= grid.IndexFromCoord(p.pos).2 + hs.2 + 1
      modifies grid.u, grid.v, grid.w, grid.weightsU, grid.weightsV, grid.weightsW
      ensures forall ax, a, b, c | grid.InFace(ax, a, b, c) ::
        grid.Vel(ax)[a, b, c] == old(grid.Vel(ax)[a, b, c]) + (if c == k && b == j then Momentum(p, ax, a, b, c) else 0.0)
        && grid.Weights(ax)[a, b, c] == old(grid.Weights(ax)[a, b, c]) + (if c == k && b == j then Kernel(p, ax, a, b, c) else 0.0)
    {
      ReachPositive();
      var cell := grid.IndexFromCoord(p.pos);
      var i := cell.0 - hs.0;
      forall ax, a, b, c | a < i
        ensures Kernel(p, ax, a, b, c) == 0.0 && Momentum(p, ax, a, b, c) == 0.0
      {
        KernelOutsideBlock(p, ax, a, b, c);
      }
      while i <= cell.0 + hs.0 + 1
        invariant cell.0 - hs.0 <= i <= cell.0 + hs.0 + 2
        invariant forall ax, a, b, c | grid.InFace(ax, a, b, c) ::
          grid.Vel(ax)[a, b, c] == old(grid.Vel(ax)[a, b, c]) + (if c == k && b == j && a < i then Momentum(p, ax, a, b, c) else 0.0)
          && grid.Weights(ax)[a, b, c] == old(grid.Weights(ax)[a, b, c]) + (if c == k && b == j && a < i then Kernel(p, ax, a, b, c) else 0.0)
      {
        SplatCell(p, h, i, j, k);
        i := i + 1;
      }
      forall ax, a, b, c | i <= a
        ensures Kernel(p, ax, a, b, c) == 0.0 && Momentum(p, ax, a, b, c) == 0.0
      {
        KernelOutsideBlock(p, ax, a, b, c);
      }
    }

    /** One iteration of the innermost loop at (i,j,k) of the block of p: the
        u, v and w faces (i,j,k) that lie in the grid each accumulate the
        particle at their grid point. */
    method SplatCell(p: Particle, h: real, i: int, j: int, k: int)
      requires Valid() && h == Radius() && InBlock(grid.IndexFromCoord(p.pos), i, j, k)
      modifies grid.u, grid.v, grid.w, grid.weightsU, grid.weightsV, grid.weightsW
      ensures forall ax, a, b, c | grid.InFace(ax, a, b, c) ::
        grid.Vel(ax)[a, b, c] == old(grid.Vel(ax)[a, b, c]) + (if (a, b, c) == (i, j, k) then Momentum(p, ax, a, b, c) else 0.0)
        && grid.Weights(ax)[a, b, c] == old(grid.Weights(ax)[a, b, c]) + (if (a, b, c) == (i, j, k) then Kernel(p, ax, a, b, c) else 0.0)
    {
      if i >= 0 && j >= 0 && k >= 0 {
        assert FaceBuffers(X) && FaceBuffers(Y) && FaceBuffers(Z);
        SplatFace(X, p, h, i, j, k);
        SplatFace(Y, p, h, i, j, k);
        SplatFace(Z, p, h, i, j, k);
      }
    }

    /** The velocity and weight buffers of family ax have its shape and are
        two different arrays. */
    predicate FaceBuffers(ax: Axis)
    {
      grid.Shaped(grid.Vel(ax), ax) && grid.Shaped(grid.Weights(ax), ax) && grid.Vel(ax) != grid.Weights(ax)
    }

    /** The test and the call of one family in the innermost loop: when face
        (i,j,k) of family ax lies in the grid it accumulates p at its grid
        point. */
    method SplatFace(ax: Axis, p: Particle, h: real, i: int, j: int, k: int)
      requires FaceBuffers(ax) && PositiveCells() && h == Radius() && InBlock(grid.IndexFromCoord(p.pos), i, j, k)
      modifies grid.Vel(ax), grid.Weights(ax)
      ensures forall a, b, c | grid.InFace(ax, a, b, c) ::
        grid.Vel(ax)[a, b, c] == old(grid.Vel(ax)[a, b, c]) + (if (a, b, c) == (i, j, k) then Momentum(p, ax, i, j, k) else 0.0)
        && grid.Weights(ax)[a, b, c] == old(grid.Weights(ax)[a, b, c]) + (if (a, b, c) == (i, j, k) then Kernel(p, ax, i, j, k) else 0.0)
    {
      if grid.InFace(ax, i, j, k) {
        AccumulateFace(ax, p.pos, p.vel, FacePoint(ax, i, j, k), h, i, j, k);
        KernelInBlock(p, ax, i, j, k);
      }
    }

    /** accumulate_u/v/w: within h of the particle, face (a,b,c) of family ax
        gains W*vel_ax and its weight gains W; nothing else changes. */
    method AccumulateFace(ax: Axis, pos: Vec3, vel: Vec3, gc: Vec3, h: real, a: int, b: int, c: int)
      requires FaceBuffers(ax) && grid.InFace(ax, a, b, c)
      modifies grid.Vel(ax), grid.Weights(ax)
      ensures grid.Vel(ax)[a, b, c] == old(grid.Vel(ax)[a, b, c]) + AcceptedWeight(kernelCoeff, pos, gc, h) * Comp(vel, ax)
      ensures grid.Weights(ax)[a, b, c] == old(grid.Weights(ax)[a, b, c]) + AcceptedWeight(kernelCoeff, pos, gc, h)
      ensures forall i, j, k | grid.InFace(ax, i, j, k) && (i, j, k) != (a, b, c) ::
        grid.Vel(ax)[i, j, k] == old(grid.Vel(ax)[i, j, k]) && grid.Weights(ax)[i, j, k] == old(grid.Weights(ax)[i, j, k])
    {
      if CheckThreshold3(pos, gc, h) {
        var prev := grid.Vel(ax)[a, b, c];
        var wgt := Weight3(kernelCoeff, pos, gc, h);
        grid.Vel(ax)[a, b, c] := prev + wgt * Comp(vel, ax);
        var wPrev := grid.Weights(ax)[a, b, c];
        grid.Weights(ax)[a, b, c] := wPrev + wgt;
      }
    }

    /** normalize_accumulated_u/v/w: every face of family ax with a nonzero
        weight is divided by it and flagged visited; the others keep value and
        flag. */
    method NormalizeAccumulated(ax: Axis, vis: array3<bool>)
      requires Valid() && vis.Length0 == grid.W(ax) && vis.Length1 == grid.H(ax) && vis.Length2 == grid.D(ax)
      modifies grid.Vel(ax), vis
      ensures forall a, b, c | grid.InFace(ax, a, b, c) ::
        grid.Vel(ax)[a, b, c] == (if grid.Weights(ax)[a, b, c] != 0.0 then old(grid.Vel(ax)[a, b, c]) / grid.Weights(ax)[a, b, c]
                                  else old(grid.Vel(ax)[a, b, c]))
        && vis[a, b, c] == (old(vis[a, b, c]) || grid.Weights(ax)[a, b, c] != 0.0)
    {
      var k := 0;
      while k < grid.D(ax)
        invariant 0 <= k <= grid.D(ax)
        invariant forall a, b, c | grid.InFace(ax, a, b, c) ::
          grid.Vel(ax)[a, b, c] == (if c < k && grid.Weights(ax)[a, b, c] != 0.0
                                    then old(grid.Vel(ax)[a, b, c]) / grid.Weights(ax)[a, b, c] else old(grid.Vel(ax)[a, b, c]))
          && vis[a, b, c] == (old(vis[a, b, c]) || (c < k && grid.Weights(ax)[a, b, c] != 0.0))
      {
        NormalizePlane(ax, vis, k);
        k := k + 1;
      }
    }

    method NormalizePlane(ax: Axis, vis: array3<bool>, k: int)
      requires Valid() && vis.Length0 == grid.W(ax) && vis.Length1 == grid.H(ax) && vis.Length2 == grid.D(ax)
      modifies grid.Vel(ax), vis
      ensures forall a, b, c | grid.InFace(ax, a, b, c) ::
        grid.Vel(ax)[a, b, c] == (if c == k && grid.Weights(ax)[a, b, c] != 0.0
                                  then old(grid.Vel(ax)[a, b, c]) / grid.Weights(ax)[a, b, c] else old(grid.Vel(ax)[a, b, c]))
        && vis[a, b, c] == (old(vis[a, b, c]) || (c == k && grid.Weights(ax)[a, b, c] != 0.0))
    {
      var j := 0;
      while j < grid.H(ax)
        invariant 0 <= j <= grid.H(ax)
        invariant forall a, b, c | grid.InFace(ax, a, b, c) ::
          grid.Vel(ax)[a, b, c] == (if c == k && b < j && grid.Weights(ax)[a, b, c] != 0.0
                                    then old(grid.Vel(ax)[a, b, c]) / grid.Weights(ax)[a, b, c] else old(grid.Vel(ax)[a, b, c]))
          && vis[a, b, c] == (old(vis[a, b, c]) || (c == k && b < j && grid.Weights(ax)[a, b, c] != 0.0))
      {
        NormalizeRow(ax, vis, j, k);
        j := j + 1;
      }
    }

    method NormalizeRow(ax: Axis, vis: array3<bool>, j: int, k: int)
      requires Valid() && vis.Length0 == grid.W(ax) && vis.Length1 == grid.H(ax) && vis.Length2 == grid.D(ax)
      modifies grid.Vel(ax), vis
      ensures forall a, b, c | grid.InFace(ax, a, b, c) ::
        grid.Vel(ax)[a, b, c] == (if c == k && b == j && grid.Weights(ax)[a, b, c] != 0.0
                                  then old(grid.Vel(ax)[a, b, c]) / grid.Weights(ax)[a, b, c] else old(grid.Vel(ax)[a, b, c]))
        && vis[a, b, c] == (old(vis[a, b, c]) || (c == k && b == j && grid.Weights(ax)[a, b, c] != 0.0))
    {
      assert grid.Shaped(grid.Vel(ax), ax) && grid.Shaped(grid.Weights(ax), ax);
      var i := 0;
      while i < grid.W(ax)
        invariant 0 <= i <= grid.W(ax)
        invariant forall a, b, c | grid.InFace(ax, a, b, c) ::
          grid.Vel(ax)[a, b, c] == (if c == k && b == j && a < i && grid.Weights(ax)[a, b, c] != 0.0
                                    then old(grid.Vel(ax)[a, b, c]) / grid.Weights(ax)[a, b, c] else old(grid.Vel(ax)[a, b, c]))
          && vis[a, b, c] == (old(vis[a, b, c]) || (c == k && b == j && a < i && grid.Weights(ax)[a, b, c] != 0.0))
      {
        if 0 <= j < grid.H(ax) && 0 <= k < grid.D(ax) {
          var wgt := grid.Weights(ax)[i, j, k];
          if wgt != 0.0 {
            var prev := grid.Vel(ax)[i, j, k];
            grid.Vel(ax)[i, j, k] := prev / wgt;
            vis[i, j, k] := true;
          }
        }
        i := i + 1;
      }
    }

    // -------------------------------------------------------------------------
    // apply_forces

    /** apply_forces: every v face loses dt*g; nothing else changes. */
    method ApplyForces(dt: real)
      requires Valid()
      modifies grid.Vel(Y)
      ensures forall a, b, c | grid.InFace(Y, a, b, c) ::
        grid.Vel(Y)[a, b, c] == old(grid.Vel(Y)[a, b, c]) - dt * gravityMag
    {
      var k := 0;
      while k < grid.L
        invariant 0 <= k <= grid.L
        invariant forall a, b, c | grid.InFace(Y, a, b, c) ::
          grid.Vel(Y)[a, b, c] == if c < k then old(grid.Vel(Y)[a, b, c]) - dt * gravityMag else old(grid.Vel(Y)[a, b, c])
      {
        ForcesPlane(dt, k);
        k := k + 1;
      }
    }

    method ForcesPlane(dt: real, k: int)
      requires Valid() && 0 <= k < grid.L
      modifies grid.Vel(Y)
      ensures forall a, b, c | grid.InFace(Y, a, b, c) ::
        grid.Vel(Y)[a, b, c] == if c == k then old(grid.Vel(Y)[a, b, c]) - dt * gravityMag else old(grid.Vel(Y)[a, b, c])
    {
      var j := 0;
      while j <= grid.M
        invariant 0 <= j <= grid.M + 1
        invariant forall a, b, c | grid.InFace(Y, a, b, c) ::
          grid.Vel(Y)[a, b, c] == if c == k && b < j then old(grid.Vel(Y)[a, b, c]) - dt * gravityMag else old(grid.Vel(Y)[a, b, c])
      {
        ForcesRow(dt, j, k);
        j := j + 1;
      }
    }

    method ForcesRow(dt: real, j: int, k: int)
      requires Valid() && 0 <= j <= grid.M && 0 <= k < grid.L
      modifies grid.Vel(Y)
      ensures forall a, b, c | grid.InFace(Y, a, b, c) ::
        grid.Vel(Y)[a, b, c] == if c == k && b == j then old(grid.Vel(Y)[a, b, c]) - dt * gravityMag else old(grid.Vel(Y)[a, b, c])
    {
      assert grid.Shaped(grid.Vel(Y), Y);
      var i := 0;
      while i < grid.N
        invariant 0 <= i <= grid.N
        invariant forall a, b, c | grid.InFace(Y, a, b, c) ::
          grid.Vel(Y)[a, b, c] == if c == k && b == j && a < i then old(grid.Vel(Y)[a, b, c]) - dt * gravityMag else old(grid.Vel(Y)[a, b, c])
      {
        grid.v[i, j, k] := grid.v[i, j, k] - dt * gravityMag;
        i := i + 1;
      }
    }

    // -------------------------------------------------------------------------
    // apply_boundary_conditions

    /** Face (a,b,c) of family ax is set to zero by the solid-wall loop: it is
        not on the lower boundary and the cell on either side is solid, by
        is_solid (which answers for the cell beyond the upper boundary too). */
    predicate WallFace(ax: Axis, a: int, b: int, c: int)
      reads grid.solid
      requires grid.Valid()
    {
      var (p, q, r) := BelowCell(ax, a, b, c);
      1 <= Normal(ax, a, b, c) && (grid.IsSolid(p, q, r) || grid.IsSolid(a, b, c))
    }

    /** The last face index along ax. */
    function LastFace(ax: Axis): int
    {
      match ax
      case X => grid.N
      case Y => grid.M
      case Z => grid.L
    }

    /** Face (a,b,c) of family ax lies on the outer boundary of the grid. */
    predicate OuterFace(ax: Axis, a: int, b: int, c: int)
    {
      Normal(ax, a, b, c) == 0 || Normal(ax, a, b, c) == LastFace(ax)
    }

    /** The faces apply_boundary_conditions sets to zero: those on the outer
        boundary, and those with a solid grid cell on either side. */
    predicate Zeroed(ax: Axis, a: int, b: int, c: int)
      reads grid.solid
      requires grid.Valid() && grid.InFace(ax, a, b, c)
    {
      match ax
      case X => a == 0 || a == grid.N || grid.solid[a - 1, b, c] || grid.solid[a, b, c]
      case Y => b == 0 || b == grid.M || grid.solid[a, b - 1, c] || grid.solid[a, b, c]
      case Z => c == 0 || c == grid.L || grid.solid[a, b, c - 1] || grid.solid[a, b, c]
    }

    /** apply_boundary_conditions: exactly the faces of Zeroed become 0, every
        other face keeps its velocity. The result does not depend on what
        is_solid answers beyond the grid. */
    method ApplyBoundaryConditions()
      requires Valid()
      modifies grid.u, grid.v, grid.w
      ensures forall ax, a, b, c | grid.InFace(ax, a, b, c) ::
        grid.Vel(ax)[a, b, c] == if Zeroed(ax, a, b, c) then 0.0 else old(grid.Vel(ax)[a, b, c])
      ensures BoundaryClean()
    {
      SolidWalls();
      OuterSides(Y);
      OuterSides(X);
      OuterSides(Z);
      forall ax, a, b, c | grid.InFace(ax, a, b, c)
        ensures grid.Vel(ax)[a, b, c] == if Zeroed(ax, a, b, c) then 0.0 else old(grid.Vel(ax)[a, b, c])
      {
        ZeroedFaces(ax, a, b, c);
      }
    }

    /** The faces zeroed are the solid-wall faces and the outer faces; for a
        face inside the grid the answer of is_solid beyond it plays no part. */
    lemma ZeroedFaces(ax: Axis, a: int, b: int, c: int)
      requires Valid() && grid.InFace(ax, a, b, c)
      ensures Zeroed(ax, a, b, c) <==> WallFace(ax, a, b, c) || OuterFace(ax, a, b, c)
    {
    }

    /** The solid-wall loop over all cells. */
    method SolidWalls()
      requires Valid()
      modifies grid.u, grid.v, grid.w
      ensures forall ax, a, b, c | grid.InFace(ax, a, b, c) ::
        grid.Vel(ax)[a, b, c] == if WallFace(ax, a, b, c) then 0.0 else old(grid.Vel(ax)[a, b, c])
    {
      var k := 0;
      while k < grid.L
        invariant 0 <= k <= grid.L
        invariant forall ax, a, b, c | grid.InFace(ax, a, b, c) ::
          grid.Vel(ax)[a, b, c] == if WallFace(ax, a, b, c) && BelowCell(ax, a, b, c).2 < k then 0.0
                                   else old(grid.Vel(ax)[a, b, c])
      {
        SolidWallPlane(k);
        k := k + 1;
      }
    }

    method SolidWallPlane(k: int)
      requires Valid() && 0 <= k < grid.L
      modifies grid.u, grid.v, grid.w
      ensures forall ax, a, b, c | grid.InFace(ax, a, b, c) ::
        grid.Vel(ax)[a, b, c] == if WallFace(ax, a, b, c) && BelowCell(ax, a, b, c).2 == k then 0.0
                                 else old(grid.Vel(ax)[a, b, c])
    {
      var j := 0;
      while j < grid.M
        invariant 0 <= j <= grid.M
        invariant forall ax, a, b, c | grid.InFace(ax, a, b, c) ::
          grid.Vel(ax)[a, b, c] == if WallFace(ax, a, b, c) && BelowCell(ax, a, b, c).2 == k && BelowCell(ax, a, b, c).1 < j then 0.0
                                   else old(grid.Vel(ax)[a, b, c])
      {
        SolidWallRow(j, k);
        j := j + 1;
      }
    }

    method SolidWallRow(j: int, k: int)
      requires Valid() && 0 <= j < grid.M && 0 <= k < grid.L
      modifies grid.u, grid.v, grid.w
      ensures forall ax, a, b, c | grid.InFace(ax, a, b, c) ::
        grid.Vel(ax)[a, b, c] == if WallFace(ax, a, b, c) && BelowCell(ax, a, b, c).2 == k && BelowCell(ax, a, b, c).1 == j then 0.0
                                 else old(grid.Vel(ax)[a, b, c])
    {
      var i := 0;
      while i < grid.N
        invariant 0 <= i <= grid.N
        invariant forall ax, a, b, c | grid.InFace(ax, a, b, c) ::
          grid.Vel(ax)[a, b, c] == if WallFace(ax, a, b, c) && BelowCell(ax, a, b, c).2 == k && BelowCell(ax, a, b, c).1 == j
                                      && BelowCell(ax, a, b, c).0 < i then 0.0
                                   else old(grid.Vel(ax)[a, b, c])
      {
        SolidWallCell(i, j, k);
        i := i + 1;
      }
    }

    /** One cell of the solid-wall loop: its upper face along each axis becomes
        0 when the cell or its upper neighbour is solid. */
    method SolidWallCell(i: int, j: int, k: int)
      requires Valid() && grid.InCell(i, j, k)
      modifies grid.u, grid.v, grid.w
      ensures forall ax, a, b, c | grid.InFace(ax, a, b, c) ::
        grid.Vel(ax)[a, b, c] == if WallFace(ax, a, b, c) && BelowCell(ax, a, b, c) == (i, j, k) then 0.0
                                 else old(grid.Vel(ax)[a, b, c])
    {
      var ijkSolid := grid.IsSolid(i, j, k);
      SolidWallFace(X, i, j, k, ijkSolid);
      SolidWallFace(Y, i, j, k, ijkSolid);
      SolidWallFace(Z, i, j, k, ijkSolid);
    }

    /** The upper face along ax of cell (i,j,k) when the cell or its upper
        neighbour (with the same indices as that face) is solid. */
    method SolidWallFace(ax: Axis, i: int, j: int, k: int, ijkSolid: bool)
      requires Valid() && grid.InCell(i, j, k) && ijkSolid == grid.IsSolid(i, j, k)
      modifies grid.Vel(ax)
      ensures forall a, b, c | grid.InFace(ax, a, b, c) ::
        grid.Vel(ax)[a, b, c] == if WallFace(ax, a, b, c) && BelowCell(ax, a, b, c) == (i, j, k) then 0.0
                                 else old(grid.Vel(ax)[a, b, c])
    {
      assert grid.Shaped(grid.Vel(ax), ax);
      var (a, b, c) := UpperFace(ax, i, j, k);
      if ijkSolid || grid.IsSolid(a, b, c) {
        grid.Vel(ax)[a, b, c] := 0.0;
      }
    }

    /** The number of faces along the inner (p) and outer (o) loop of the
        outer-boundary loops of family ax. */
    function InnerCount(ax: Axis): int
    {
      if ax == X then grid.M else grid.N
    }

    function OuterCount(ax: Axis): int
    {
      if ax == Z then grid.M else grid.L
    }

    /** One outer-boundary loop: both boundary layers of family ax become 0;
        nothing else changes. */
    method OuterSides(ax: Axis)
      requires Valid()
      modifies grid.Vel(ax)
      ensures forall a, b, c | grid.InFace(ax, a, b, c) ::
        grid.Vel(ax)[a, b, c] == if OuterFace(ax, a, b, c) then 0.0 else old(grid.Vel(ax)[a, b, c])
    {
      var o := 0;
      while o < OuterCount(ax)
        invariant 0 <= o <= OuterCount(ax)
        invariant forall a, b, c | grid.InFace(ax, a, b, c) ::
          grid.Vel(ax)[a, b, c] == if OuterFace(ax, a, b, c) && Tangents(ax, a, b, c).1 < o then 0.0
                                   else old(grid.Vel(ax)[a, b, c])
      {
        OuterRow(ax, o);
        o := o + 1;
      }
    }

    method OuterRow(ax: Axis, o: int)
      requires Valid() && 0 <= o < OuterCount(ax)
      modifies grid.Vel(ax)
      ensures forall a, b, c | grid.InFace(ax, a, b, c) ::
        grid.Vel(ax)[a, b, c] == if OuterFace(ax, a, b, c) && Tangents(ax, a, b, c).1 == o then 0.0
                                 else old(grid.Vel(ax)[a, b, c])
    {
      assert grid.Shaped(grid.Vel(ax), ax);
      var p := 0;
      while p < InnerCount(ax)
        invariant 0 <= p <= InnerCount(ax)
        invariant forall a, b, c | grid.InFace(ax, a, b, c) ::
          grid.Vel(ax)[a, b, c] == if OuterFace(ax, a, b, c) && Tangents(ax, a, b, c).1 == o && Tangents(ax, a, b, c).0 < p then 0.0
                                   else old(grid.Vel(ax)[a, b, c])
      {
        var (a0, b0, c0) := Face(ax, 0, p, o);
        grid.Vel(ax)[a0, b0, c0] := 0.0;
        var (a1, b1, c1) := Face(ax, LastFace(ax), p, o);
        grid.Vel(ax)[a1, b1, c1] := 0.0;
        p := p + 1;
      }
    }

    // -------------------------------------------------------------------------
    // compute_pressure_matrix

    /** A valid grid gives the matrix its inputs: flags for every cell and one
        diagonal triplet per cell. */
    lemma MatrixInputsOf()
      requires Valid()
      ensures MatrixInputs3(Flags(grid.fluid), grid.aDiag, grid.N, grid.M, grid.L)
    {
    }

    /** compute_pressure_matrix: the triplets pushed in loop order; the list
        holds every cell's diagonal entry once, and otherwise symmetric -1
        entries linking two cells exactly when they are fluid neighbours
        along an axis. */
    method ComputePressureMatrix()
      requires Valid()
      modifies this`A
      ensures MatrixInputs3(Flags(grid.fluid), grid.aDiag, grid.N, grid.M, grid.L)
      ensures A == MatrixTriplets3(Flags(grid.fluid), grid.aDiag, grid.N, grid.M, grid.L)
      ensures AllWellFormed3(Flags(grid.fluid), grid.aDiag, grid.N, grid.M, grid.L, A)
      ensures MirrorClosed(A)
      ensures forall x | 0 <= x < grid.N * grid.M * grid.L :: DiagCountAt(A, x) == 1
      ensures forall r, c | r != c :: Triplet(r, c, -1.0) in A
                <==> Linked3(Flags(grid.fluid), grid.N, grid.M, grid.L, r, c)
                     || Linked3(Flags(grid.fluid), grid.N, grid.M, grid.L, c, r)
    {
      MatrixInputsOf();
      var fl := Flags(grid.fluid);
      var triplets := MatrixPlanes(fl, grid.aDiag, grid.N, grid.M, grid.L);
      A := triplets;
      MatrixTriplets3Exact(fl, grid.aDiag, grid.N, grid.M, grid.L);
    }

    // -------------------------------------------------------------------------
    // compute_pressure_rhs

    /** Side ax of cell (i,j,k) below it is a wall: the cell is at the lower
        edge of the grid, or its lower neighbour is solid. */
    predicate LowWall(ax: Axis, i: int, j: int, k: int)
      reads grid.solid
      requires Valid()
    {
      var (p, q, r) := BelowCell(ax, i, j, k);
      (Normal(ax, i, j, k) > 0 && grid.IsSolid(p, q, r)) || Normal(ax, i, j, k) == 0
    }

    /** Side ax of cell (i,j,k) above it is a wall: the cell is at the upper
        edge of the grid, or its upper neighbour is solid. */
    predicate HighWall(ax: Axis, i: int, j: int, k: int)
      reads grid.solid
      requires Valid()
    {
      var (p, q, r) := UpperFace(ax, i, j, k);
      (Normal(ax, i, j, k) < LastFace(ax) - 1 && grid.IsSolid(p, q, r)) || Normal(ax, i, j, k) == LastFace(ax) - 1
    }

    /** d_ijk of compute_pressure_rhs for cell (i,j,k), before scaling. */
    function CellDivergence(i: int, j: int, k: int): real
      reads grid.u, grid.v, grid.w, grid.solid
      requires Valid() && grid.InCell(i, j, k)
    {
      assert grid.Shaped(grid.Vel(X), X) && grid.Shaped(grid.Vel(Y), Y) && grid.Shaped(grid.Vel(Z), Z);
      RhsDivergence3(grid.u[i, j, k], grid.u[i + 1, j, k], grid.v[i, j, k], grid.v[i, j + 1, k],
                     grid.w[i, j, k], grid.w[i, j, k + 1],
                     LowWall(X, i, j, k), HighWall(X, i, j, k), LowWall(Y, i, j, k), HighWall(Y, i, j, k),
                     LowWall(Z, i, j, k), HighWall(Z, i, j, k))
    }

    /** d_ of compute_pressure_rhs for cell (i,j,k): density*dx*d_ijk/dt for a
        fluid cell, 0 for any other. */
    function CellRhs(i: int, j: int, k: int, dt: real): real
      reads grid.u, grid.v, grid.w, grid.fluid, grid.solid
      requires Valid() && grid.InCell(i, j, k) && dt != 0.0
    {
      if grid.fluid[i, j, k] then ScaledRhs(fluidDensity, grid.cellSizeX, CellDivergence(i, j, k), dt) else 0.0
    }

    /** Every face apply_boundary_conditions sets to zero is zero. */
    ghost predicate BoundaryClean()
      reads grid.u, grid.v, grid.w, grid.solid
      requires Valid()
    {
      forall ax, a, b, c | grid.InFace(ax, a, b, c) && Zeroed(ax, a, b, c) :: grid.Vel(ax)[a, b, c] == 0.0
    }

    /** Both faces of a wall side are among those the boundary conditions zero. */
    lemma WallSidesZero(ax: Axis, i: int, j: int, k: int)
      requires Valid() && grid.InCell(i, j, k) && BoundaryClean()
      ensures grid.InFace(ax, i, j, k) && LowWall(ax, i, j, k) ==> grid.Vel(ax)[i, j, k] == 0.0
      ensures var (a, b, c) := UpperFace(ax, i, j, k);
        grid.InFace(ax, a, b, c) && (HighWall(ax, i, j, k) ==> grid.Vel(ax)[a, b, c] == 0.0)
    {
      assert grid.Shaped(grid.Vel(ax), ax);
      var (a, b, c) := UpperFace(ax, i, j, k);
      assert grid.InFace(ax, i, j, k) && grid.InFace(ax, a, b, c);
      if LowWall(ax, i, j, k) {
        assert Zeroed(ax, i, j, k);
      }
      if HighWall(ax, i, j, k) {
        assert Zeroed(ax, a, b, c);
      }
    }

    /** After apply_boundary_conditions the wall corrections of the right-hand
        side vanish: d_ijk is the negative divergence of the cell's faces. */
    lemma RhsAfterBoundaries(i: int, j: int, k: int)
      requires Valid() && grid.InCell(i, j, k) && BoundaryClean()
      ensures assert grid.Shaped(grid.Vel(X), X) && grid.Shaped(grid.Vel(Y), Y) && grid.Shaped(grid.Vel(Z), Z);
        CellDivergence(i, j, k)
        == -((grid.u[i + 1, j, k] - grid.u[i, j, k]) + (grid.v[i, j + 1, k] - grid.v[i, j, k])
             + (grid.w[i, j, k + 1] - grid.w[i, j, k]))
    {
      assert grid.Shaped(grid.Vel(X), X) && grid.Shaped(grid.Vel(Y), Y) && grid.Shaped(grid.Vel(Z), Z);
      WallSidesZero(X, i, j, k);
      WallSidesZero(Y, i, j, k);
      WallSidesZero(Z, i, j, k);
      RhsZeroWallFaces(grid.u[i, j, k], grid.u[i + 1, j, k], grid.v[i, j, k], grid.v[i, j + 1, k],
                       grid.w[i, j, k], grid.w[i, j, k + 1],
                       LowWall(X, i, j, k), HighWall(X, i, j, k), LowWall(Y, i, j, k), HighWall(Y, i, j, k),
                       LowWall(Z, i, j, k), HighWall(Z, i, j, k));
    }

    /** compute_pressure_rhs: one entry per cell, at the cell's flat index. */
    method ComputePressureRhs(dt: real)
      requires Valid() && dt != 0.0
      modifies this`d
      ensures |d| == grid.N * grid.M * grid.L
      ensures forall a, b, c | grid.InCell(a, b, c) ::
        0 <= Flat3(grid.N, grid.M, a, b, c) < |d| && d[Flat3(grid.N, grid.M, a, b, c)] == CellRhs(a, b, c, dt)
    {
      d := [];
      var k := 0;
      while k < grid.L
        invariant 0 <= k <= grid.L
        invariant |d| == (grid.N * grid.M) * k
        invariant forall a, b, c | grid.InCell(a, b, c) && c < k ::
          0 <= Flat3(grid.N, grid.M, a, b, c) < |d| && d[Flat3(grid.N, grid.M, a, b, c)] == CellRhs(a, b, c, dt)
      {
        ghost var d0 := d;
        RhsPlane(k, dt);
        MulSucc(grid.N * grid.M, k);
        forall a, b, c | grid.InCell(a, b, c) && c <= k
          ensures 0 <= Flat3(grid.N, grid.M, a, b, c) < |d| && d[Flat3(grid.N, grid.M, a, b, c)] == CellRhs(a, b, c, dt)
        {
          if c < k {
            assert d[Flat3(grid.N, grid.M, a, b, c)] == d[..|d0|][Flat3(grid.N, grid.M, a, b, c)];
          } else {
            assert Flat3(grid.N, grid.M, a, b, c) == |d0| + Flat2(grid.N, a, b);
          }
        }
        k := k + 1;
      }
    }

    method RhsPlane(k: int, dt: real)
      requires Valid() && dt != 0.0 && 0 <= k < grid.L
      modifies this`d
      ensures |d| == |old(d)| + grid.N * grid.M && d[..|old(d)|] == old(d)
      ensures forall a, b | 0 <= a < grid.N && 0 <= b < grid.M ::
        |old(d)| <= |old(d)| + Flat2(grid.N, a, b) < |d| && d[|old(d)| + Flat2(grid.N, a, b)] == CellRhs(a, b, k, dt)
    {
      var j := 0;
      while j < grid.M
        invariant 0 <= j <= grid.M
        invariant |d| == |old(d)| + grid.N * j && d[..|old(d)|] == old(d)
        invariant forall a, b | 0 <= a < grid.N && 0 <= b < j ::
          |old(d)| <= |old(d)| + Flat2(grid.N, a, b) < |d| && d[|old(d)| + Flat2(grid.N, a, b)] == CellRhs(a, b, k, dt)
      {
        RhsRow(j, k, dt);
        MulSucc(grid.N, j);
        j := j + 1;
      }
    }

    method RhsRow(j: int, k: int, dt: real)
      requires Valid() && dt != 0.0 && 0 <= j < grid.M && 0 <= k < grid.L
      modifies this`d
      ensures |d| == |old(d)| + grid.N && d[..|old(d)|] == old(d)
      ensures forall a | 0 <= a < grid.N :: d[|old(d)| + a] == CellRhs(a, j, k, dt)
    {
      var i := 0;
      while i < grid.N
        invariant 0 <= i <= grid.N
        invariant |d| == |old(d)| + i && d[..|old(d)|] == old(d)
        invariant forall a | 0 <= a < i :: d[|old(d)| + a] == CellRhs(a, j, k, dt)
      {
        var value := RhsCell(i, j, k, dt);
        d := d + [value];
        i := i + 1;
      }
    }

    /** One cell of compute_pressure_rhs: the wall tests, then d_ijk scaled
        for a fluid cell, 0 otherwise. */
    method RhsCell(i: int, j: int, k: int, dt: real) returns (value: real)
      requires Valid() && grid.InCell(i, j, k) && dt != 0.0
      ensures value == CellRhs(i, j, k, dt)
    {
      if grid.IsFluid(i, j, k) {
        var wallXp, wallXm := HighWall(X, i, j, k), LowWall(X, i, j, k);
        var wallYp, wallYm := HighWall(Y, i, j, k), LowWall(Y, i, j, k);
        var wallZp, wallZm := HighWall(Z, i, j, k), LowWall(Z, i, j, k);
        assert grid.Shaped(grid.Vel(X), X) && grid.Shaped(grid.Vel(Y), Y) && grid.Shaped(grid.Vel(Z), Z);
        var dij := RhsDivergence3(grid.u[i, j, k], grid.u[i + 1, j, k], grid.v[i, j, k], grid.v[i, j + 1, k],
                                  grid.w[i, j, k], grid.w[i, j, k + 1], wallXm, wallXp, wallYm, wallYp, wallZm, wallZp);
        value := ScaledRhs(fluidDensity, grid.cellSizeX, dij, dt);
      } else {
        value := 0.0;
      }
    }

    // -------------------------------------------------------------------------
    // apply_pressure_gradients

    /** The velocity of the lower face along ax of cell (a,b,c) after
        apply_pressure_gradients, from its velocity vel before: off the lower
        boundary it moves against the pressure difference across it, on the
        lower boundary it keeps vel. */
    function AfterGradient(ax: Axis, a: int, b: int, c: int, vel: real, factor: real): real
      reads grid.pressure
      requires Valid() && grid.InCell(a, b, c)
    {
      var (p, q, r) := BelowCell(ax, a, b, c);
      if Normal(ax, a, b, c) != 0 then PressureStep(vel, grid.pressure[a, b, c], grid.pressure[p, q, r], factor)
      else vel
    }

    /** The pressure buffer is none of the velocity buffers. */
    lemma PressureApart()
      requires Valid()
      ensures grid.pressure != grid.u && grid.pressure != grid.v && grid.pressure != grid.w
    {
      assert grid.pressure != grid.Vel(X) && grid.pressure != grid.Vel(Y) && grid.pressure != grid.Vel(Z);
    }

    /** apply_pressure_gradients with factor dt/(dx*density): the lower face of
        every cell is updated; the faces on the upper boundary, which are the
        lower face of no cell, keep their velocity. */
    method ApplyPressureGradients(dt: real)
      requires Valid() && fluidDensity != 0.0
      modifies grid.u, grid.v, grid.w
      ensures forall ax, a, b, c | grid.InFace(ax, a, b, c) ::
        grid.Vel(ax)[a, b, c] == if grid.InCell(a, b, c)
                                 then AfterGradient(ax, a, b, c, old(grid.Vel(ax)[a, b, c]), dt / (grid.cellSizeX * fluidDensity))
                                 else old(grid.Vel(ax)[a, b, c])
    {
      var factor := dt / (grid.cellSizeX * fluidDensity);
      PressureApart();
      var k := 0;
      while k < grid.L
        invariant 0 <= k <= grid.L
        invariant forall ax, a, b, c | grid.InFace(ax, a, b, c) ::
          grid.Vel(ax)[a, b, c] == if grid.InCell(a, b, c) && c < k then AfterGradient(ax, a, b, c, old(grid.Vel(ax)[a, b, c]), factor)
                                   else old(grid.Vel(ax)[a, b, c])
      {
        GradientPlane(k, factor);
        k := k + 1;
      }
    }

    method GradientPlane(k: int, factor: real)
      requires Valid() && 0 <= k < grid.L
      modifies grid.u, grid.v, grid.w
      ensures forall ax, a, b, c | grid.InFace(ax, a, b, c) ::
        grid.Vel(ax)[a, b, c] == if grid.InCell(a, b, c) && c == k then AfterGradient(ax, a, b, c, old(grid.Vel(ax)[a, b, c]), factor)
                                 else old(grid.Vel(ax)[a, b, c])
    {
      PressureApart();
      var j := 0;
      while j < grid.M
        invariant 0 <= j <= grid.M
        invariant forall ax, a, b, c | grid.InFace(ax, a, b, c) ::
          grid.Vel(ax)[a, b, c] == if grid.InCell(a, b, c) && c == k && b < j then AfterGradient(ax, a, b, c, old(grid.Vel(ax)[a, b, c]), factor)
                                   else old(grid.Vel(ax)[a, b, c])
      {
        GradientRow(j, k, factor);
        j := j + 1;
      }
    }

    method GradientRow(j: int, k: int, factor: real)
      requires Valid() && 0 <= j < grid.M && 0 <= k < grid.L
      modifies grid.u, grid.v, grid.w
      ensures forall ax, a, b, c | grid.InFace(ax, a, b, c) ::
        grid.Vel(ax)[a, b, c] == if grid.InCell(a, b, c) && c == k && b == j then AfterGradient(ax, a, b, c, old(grid.Vel(ax)[a, b, c]), factor)
                                 else old(grid.Vel(ax)[a, b, c])
    {
      PressureApart();
      var i := 0;
      while i < grid.N
        invariant 0 <= i <= grid.N
        invariant forall ax, a, b, c | grid.InFace(ax, a, b, c) ::
          grid.Vel(ax)[a, b, c] == if grid.InCell(a, b, c) && c == k && b == j && a < i
                                   then AfterGradient(ax, a, b, c, old(grid.Vel(ax)[a, b, c]), factor)
                                   else old(grid.Vel(ax)[a, b, c])
      {
        GradientCell(i, j, k, factor);
        i := i + 1;
      }
    }

    /** One cell of apply_pressure_gradients: its lower u, v and w faces. */
    method GradientCell(i: int, j: int, k: int, factor: real)
      requires Valid() && grid.InCell(i, j, k)
      modifies grid.u, grid.v, grid.w
      ensures forall ax, a, b, c | grid.InFace(ax, a, b, c) ::
        grid.Vel(ax)[a, b, c] == if (a, b, c) == (i, j, k) then AfterGradient(ax, a, b, c, old(grid.Vel(ax)[a, b, c]), factor)
                                 else old(grid.Vel(ax)[a, b, c])
    {
      GradientFace(X, i, j, k, factor);
      GradientFace(Y, i, j, k, factor);
      GradientFace(Z, i, j, k, factor);
    }

    /** The update of face (i,j,k) of family ax, skipped on the lower boundary. */
    method GradientFace(ax: Axis, i: int, j: int, k: int, factor: real)
      requires Valid() && grid.InCell(i, j, k)
      modifies grid.Vel(ax)
      ensures forall a, b, c | grid.InFace(ax, a, b, c) ::
        grid.Vel(ax)[a, b, c] == if (a, b, c) == (i, j, k) then AfterGradient(ax, a, b, c, old(grid.Vel(ax)[a, b, c]), factor)
                                 else old(grid.Vel(ax)[a, b, c])
    {
      assert grid.Shaped(grid.Vel(ax), ax);
      if Normal(ax, i, j, k) != 0 {
        var (p, q, r) := BelowCell(ax, i, j, k);
        var du := grid.pressure[i, j, k] - grid.pressure[p, q, r];
        du := du * factor;
        grid.Vel(ax)[i, j, k] := grid.Vel(ax)[i, j, k] - du;
      }
    }

    // -------------------------------------------------------------------------
    // do_pressures

    /** compute_pressure_matrix then compute_pressure_rhs. */
    method AssembleSystem(dt: real)
      requires Valid() && dt != 0.0
      modifies this`A, this`d
      ensures MatrixInputs3(Flags(grid.fluid), grid.aDiag, grid.N, grid.M, grid.L)
      ensures A == MatrixTriplets3(Flags(grid.fluid), grid.aDiag, grid.N, grid.M, grid.L)
      ensures |d| == grid.N * grid.M * grid.L
      ensures forall a, b, c | grid.InCell(a, b, c) ::
        0 <= Flat3(grid.N, grid.M, a, b, c) < |d| && d[Flat3(grid.N, grid.M, a, b, c)] == old(CellRhs(a, b, c, dt))
    {
      ComputePressureMatrix();
      ComputePressureRhs(dt);
    }

    /** do_pressures, with the solver's answer p for A p = d given: the matrix
        and right-hand side of the current field, the pressures copied to the
        grid, and the gradient update of every cell's lower faces from them. */
    method DoPressures(dt: real, p: seq<real>)
      requires Valid() && dt != 0.0 && fluidDensity != 0.0 && |p| == grid.N * grid.M * grid.L
      modifies this`A, this`d, grid.pressure, grid.u, grid.v, grid.w
      ensures MatrixInputs3(Flags(grid.fluid), grid.aDiag, grid.N, grid.M, grid.L)
      ensures A == MatrixTriplets3(Flags(grid.fluid), grid.aDiag, grid.N, grid.M, grid.L)
      ensures |d| == grid.N * grid.M * grid.L
      ensures forall a, b, c | grid.InCell(a, b, c) ::
        0 <= Flat3(grid.N, grid.M, a, b, c) < |d| && d[Flat3(grid.N, grid.M, a, b, c)] == old(CellRhs(a, b, c, dt))
      ensures forall a, b, c | grid.InCell(a, b, c) ::
        0 <= Flat3(grid.N, grid.M, a, b, c) < |p| && grid.pressure[a, b, c] == p[Flat3(grid.N, grid.M, a, b, c)]
      ensures forall ax, a, b, c | grid.InFace(ax, a, b, c) ::
        grid.Vel(ax)[a, b, c] == if grid.InCell(a, b, c)
                                 then AfterGradient(ax, a, b, c, old(grid.Vel(ax)[a, b, c]), dt / (grid.cellSizeX * fluidDensity))
                                 else old(grid.Vel(ax)[a, b, c])
    {
      PressureApart();
      AssembleSystem(dt);
      grid.SetPressure(p);
      ApplyPressureGradients(dt);
    }

    // -------------------------------------------------------------------------
    // grid_to_particle

    function CellSizes(): Vec3
    {
      Vec3(grid.cellSizeX, grid.cellSizeY, grid.cellSizeZ)
    }

    function Extent(): Vec3
    {
      Vec3(grid.sizeX, grid.sizeY, grid.sizeZ)
    }

    /** The grid buffers the particle phases read, as values. */
    function Snapshot(): GridState
      reads grid.u, grid.v, grid.w, grid.uStar, grid.vStar, grid.wStar, grid.solid
    {
      GridState(Contents(grid.u), Contents(grid.v), Contents(grid.w),
                Contents(grid.uStar), Contents(grid.vStar), Contents(grid.wStar), Flags(grid.solid))
    }

    /** The interpolation of the three velocity fields of s, or of their saved
        copies, at q. */
    function InterpIn(s: GridState, q: Vec3, star: bool): Vec3
    {
      if star then Vec3(grid.interp(X, s.uStar, q), grid.interp(Y, s.vStar, q), grid.interp(Z, s.wStar, q))
      else Vec3(grid.interp(X, s.u, q), grid.interp(Y, s.v, q), grid.interp(Z, s.w, q))
    }

    /** is_solid on the flags of s: the flag inside the grid, the stand-in's
        answer outside it. */
    predicate SolidIn(s: GridState, i: int, j: int, k: int)
    {
      if grid.InCell(i, j, k) && i < |s.solid| && j < |s.solid[i]| && k < |s.solid[i][j]| then s.solid[i][j][k]
      else grid.solidBeyond(i, j, k)
    }

    /** On the current buffers the value functions agree with the grid's
        accessors. */
    lemma SnapshotAgrees(q: Vec3, i: int, j: int, k: int)
      requires Valid()
      ensures InterpIn(Snapshot(), q, false) == Vec3(grid.Interp(X, q, false), grid.Interp(Y, q, false), grid.Interp(Z, q, false))
      ensures InterpIn(Snapshot(), q, true) == Vec3(grid.Interp(X, q, true), grid.Interp(Y, q, true), grid.Interp(Z, q, true))
      ensures SolidIn(Snapshot(), i, j, k) == grid.IsSolid(i, j, k)
    {
      assert grid.Shaped(grid.Vel(X), X);
      var f := Flags(grid.solid);
    }

    /** The particle's cell lies on the boundary layer of the grid. */
    predicate AtEdge(pos: Vec3)
    {
      var idx := grid.IndexFromCoord(pos);
      idx.0 == 0 || idx.0 == grid.N - 1 || idx.1 == 0 || idx.1 == grid.M - 1 || idx.2 == 0 || idx.2 == grid.L - 1
    }

    /** The velocity grid_to_particle gives particle p on the buffers s: the
        blend of its velocity with the interpolated field and saved field at
        its position. */
    function BlendedVelocity(s: GridState, p: Particle): Vec3
    {
      Blend3Vec(alpha, AtEdge(p.pos), p.vel, InterpIn(s, p.pos, false), InterpIn(s, p.pos, true))
    }

    /** grid_to_particle: every particle gets its blended velocity and keeps
        its position. */
    method GridToParticle()
      modifies particles
      ensures forall n | 0 <= n < particles.Length ::
        particles[n] == old(particles[n]).(vel := BlendedVelocity(Snapshot(), old(particles[n])))
    {
      ghost var ps := particles[..];
      ghost var s := Snapshot();
      var i := 0;
      while i < particles.Length
        invariant 0 <= i <= particles.Length == |ps|
        invariant forall n | 0 <= n < i :: particles[n] == ps[n].(vel := BlendedVelocity(s, ps[n]))
        invariant forall n | i <= n < particles.Length :: particles[n] == ps[n]
      {
        var uUpdate := G2POne(particles[i], s);
        particles[i] := particles[i].(vel := uUpdate);
        i := i + 1;
      }
    }

    /** The body of grid_to_particle's loop: the six interpolations and the
        blend, with the PIC share widened on the boundary layer. */
    method G2POne(p: Particle, ghost s: GridState) returns (uUpdate: Vec3)
      requires s == Snapshot()
      ensures uUpdate == BlendedVelocity(s, p)
    {
      var idx := grid.IndexFromCoord(p.pos);
      var interpStar := Vec3(grid.Interp(X, p.pos, true), grid.Interp(Y, p.pos, true), grid.Interp(Z, p.pos, true));
      var interpN1 := Vec3(grid.Interp(X, p.pos, false), grid.Interp(Y, p.pos, false), grid.Interp(Z, p.pos, false));
      var atEdge := idx.0 == 0 || idx.0 == grid.N - 1 || idx.1 == 0 || idx.1 == grid.M - 1
                    || idx.2 == 0 || idx.2 == grid.L - 1;
      uUpdate := Vec3(Blend3(alpha, atEdge, p.vel.x, interpN1.x, interpStar.x),
                      Blend3(alpha, atEdge, p.vel.y, interpN1.y, interpStar.y),
                      Blend3(alpha, atEdge, p.vel.z, interpN1.z, interpStar.z));
    }

    // -------------------------------------------------------------------------
    // advance_particles

    /** The RK2 estimate of advance_particles, clamped into the grid: the
        position plus dt times the field interpolated at the Euler midpoint. */
    function Clamped3(s: GridState, p: Particle, dt: real): Vec3
    {
      var half := Midpoint(p.pos, p.vel, dt);
      Clamped(Add(p.pos, Scale(dt, InterpIn(s, half, false))), CellSizes(), Extent())
    }

    /** The cell advance_particles tests for solids: the clamped x and y, but
        the z index of the current position. */
    function NewIndices(s: GridState, p: Particle, dt: real): (int, int, int)
    {
      var q := Clamped3(s, p, dt);
      (grid.cellX(q.x), grid.cellY(q.y), grid.cellZ(p.pos.z))
    }

    /** The particle after advance_particles on the buffers s: unchanged when
        the Euler midpoint leaves the grid; otherwise moved to the clamped RK2
        estimate, pulled back toward its current cell on x and y when the
        probed cell is solid (never on z, whose probed index is the current
        one). Velocity and previous position are kept. */
    function AdvancedParticle(s: GridState, p: Particle, dt: real): Particle
    {
      if OutsideGrid(Midpoint(p.pos, p.vel, dt), CellSizes(), Extent()) then p
      else
        var q := Clamped3(s, p, dt);
        var nw := NewIndices(s, p, dt);
        var prev := grid.IndexFromCoord(p.pos);
        p.(pos := if SolidIn(s, nw.0, nw.1, nw.2) then PulledBack(prev, nw, CellSizes(), q) else q)
    }

    /** What advance_particles keeps of one particle: velocity and previous
        position always; the whole particle when the midpoint leaves the grid;
        otherwise z is the clamped estimate, never pulled back. */
    lemma AdvancedParticleKeeps(s: GridState, p: Particle, dt: real)
      ensures AdvancedParticle(s, p, dt).vel == p.vel && AdvancedParticle(s, p, dt).prevPos == p.prevPos
      ensures OutsideGrid(Midpoint(p.pos, p.vel, dt), CellSizes(), Extent()) ==> AdvancedParticle(s, p, dt) == p
      ensures !OutsideGrid(Midpoint(p.pos, p.vel, dt), CellSizes(), Extent()) ==>
        AdvancedParticle(s, p, dt).pos.z == Clamped3(s, p, dt).z
    {
      if !OutsideGrid(Midpoint(p.pos, p.vel, dt), CellSizes(), Extent()) {
        var q := Clamped3(s, p, dt);
        var nw := NewIndices(s, p, dt);
        var prev := grid.IndexFromCoord(p.pos);
        assert nw.2 == prev.2;
        assert PulledBack(prev, nw, CellSizes(), q).z == q.z;
      }
    }

    /** A particle whose midpoint stays in the grid and whose probed cell is
        not solid moves to the clamped estimate, which lies in the grid when
        each cell fits in it. */
    lemma AdvancedParticleClamped(s: GridState, p: Particle, dt: real)
      requires 0.0 < grid.cellSizeX && 0.0 < grid.cellSizeY && 0.0 < grid.cellSizeZ
      requires !OutsideGrid(Midpoint(p.pos, p.vel, dt), CellSizes(), Extent())
      requires var nw := NewIndices(s, p, dt); !SolidIn(s, nw.0, nw.1, nw.2)
      ensures AdvancedParticle(s, p, dt).pos == Clamped3(s, p, dt)
      ensures grid.cellSizeX <= grid.sizeX && grid.cellSizeY <= grid.sizeY && grid.cellSizeZ <= grid.sizeZ ==>
        !OutsideGrid(AdvancedParticle(s, p, dt).pos, CellSizes(), Extent())
    {
      var half := Midpoint(p.pos, p.vel, dt);
      var q := Add(p.pos, Scale(dt, InterpIn(s, half, false)));
      var cs, size := CellSizes(), Extent();
      assert Clamped3(s, p, dt) == Clamped(q, cs, size);
      var r := Clamped(q, cs, size);
      if cs.x <= size.x && cs.y <= size.y && cs.z <= size.z {
        assert !OutOfWindow(r.x, cs.x, size.x) && !OutOfWindow(r.y, cs.y, size.y) && !OutOfWindow(r.z, cs.z, size.z);
      }
    }

    /** A particle whose midpoint stays in the grid and whose probed cell is
        solid lands, on x and on y, strictly between the probed and the current
        cell index whenever the two indices differ. */
    lemma AdvancedParticlePulledBack(s: GridState, p: Particle, dt: real)
      requires 0.0 < grid.cellSizeX && 0.0 < grid.cellSizeY
      requires !OutsideGrid(Midpoint(p.pos, p.vel, dt), CellSizes(), Extent())
      requires var nw := NewIndices(s, p, dt); SolidIn(s, nw.0, nw.1, nw.2)
      ensures var nw := NewIndices(s, p, dt); var prev := grid.IndexFromCoord(p.pos);
        var r := AdvancedParticle(s, p, dt).pos;
        && (prev.0 > nw.0 ==> nw.0 as real * grid.cellSizeX < r.x < prev.0 as real * grid.cellSizeX)
        && (prev.0 < nw.0 ==> prev.0 as real * grid.cellSizeX < r.x < nw.0 as real * grid.cellSizeX)
        && (prev.1 > nw.1 ==> nw.1 as real * grid.cellSizeY < r.y < prev.1 as real * grid.cellSizeY)
        && (prev.1 < nw.1 ==> prev.1 as real * grid.cellSizeY < r.y < nw.1 as real * grid.cellSizeY)
    {
      var q := Clamped3(s, p, dt);
      var nw := NewIndices(s, p, dt);
      var prev := grid.IndexFromCoord(p.pos);
      var cs := CellSizes();
      assert AdvancedParticle(s, p, dt).pos == PulledBack(prev, nw, cs, q);
      assert cs.x == grid.cellSizeX && cs.y == grid.cellSizeY;
      PulledBackBetween(prev, nw, cs, q);
    }

    /** advance_particles: every particle is advanced by one step of dt; the
        step number is not used. */
    method AdvanceParticles(dt: real, step: int)
      requires Valid()
      modifies particles
      ensures forall n | 0 <= n < particles.Length ::
        particles[n] == AdvancedParticle(Snapshot(), old(particles[n]), dt)
    {
      ghost var ps := particles[..];
      ghost var s := Snapshot();
      var n := 0;
      while n < particles.Length
        invariant 0 <= n <= particles.Length == |ps|
        invariant forall m | 0 <= m < n :: particles[m] == AdvancedParticle(s, ps[m], dt)
        invariant forall m | n <= m < particles.Length :: particles[m] == ps[m]
      {
        AdvanceAt(n, dt, s);
        n := n + 1;
      }
    }

    /** One pass of advance_particles' loop: particle n moves, the others stay. */
    method AdvanceAt(n: int, dt: real, ghost s: GridState)
      requires Valid() && s == Snapshot() && 0 <= n < particles.Length
      modifies particles
      ensures particles[n] == AdvancedParticle(s, old(particles[n]), dt)
      ensures forall m | 0 <= m < particles.Length && m != n :: particles[m] == old(particles[m])
    {
      var skip, posNext := AdvanceOne(particles[n], dt, s);
      if !skip {
        particles[n] := particles[n].(pos := posNext);
      }
    }

    /** The body of advance_particles' loop for particle p: whether it is
        skipped, and otherwise its new position. */
    method AdvanceOne(p: Particle, dt: real, ghost s: GridState) returns (skip: bool, posNext: Vec3)
      requires Valid() && s == Snapshot()
      ensures skip ==> AdvancedParticle(s, p, dt) == p
      ensures !skip ==> AdvancedParticle(s, p, dt) == p.(pos := posNext)
    {
      var posCurr := p.pos;
      var vel := p.vel;
      var posHalf := Add(posCurr, Scale(0.5 * dt, vel));
      var cs := CellSizes();
      var size := Extent();
      if OutOfWindow(posHalf.x, cs.x, size.x) || OutOfWindow(posHalf.y, cs.y, size.y)
         || OutOfWindow(posHalf.z, cs.z, size.z) {
        skip, posNext := true, posCurr;
        return;
      }
      skip := false;
      var uHalf := Vec3(grid.Interp(X, posHalf, false), grid.Interp(Y, posHalf, false), grid.Interp(Z, posHalf, false));
      var next := Add(posCurr, Scale(dt, uHalf));
      posNext := Vec3(ClampCoord(next.x, cs.x, size.x), ClampCoord(next.y, cs.y, size.y), ClampCoord(next.z, cs.z, size.z));
      var prevIndices := grid.IndexFromCoord(posCurr);
      var newIndices := grid.IndexFromCoord(Vec3(posNext.x, posNext.y, posCurr.z));
      SnapshotAgrees(posHalf, newIndices.0, newIndices.1, newIndices.2);
      assert uHalf == InterpIn(s, Midpoint(p.pos, p.vel, dt), false);
      assert posNext == Clamped(next, CellSizes(), Extent());
      assert posNext == Clamped3(s, p, dt);
      if grid.IsSolid(newIndices.0, newIndices.1, newIndices.2) {
        posNext := Vec3(PullBack(prevIndices.0, newIndices.0, cs.x, posNext.x),
                        PullBack(prevIndices.1, newIndices.1, cs.y, posNext.y),
                        PullBack(prevIndices.2, newIndices.2, cs.z, posNext.z));
      }
    }

    // -------------------------------------------------------------------------
    // step_FLIP

    /** p after k passes of advance_particles over the grid state s. */
    function AdvancedTimes(s: GridState, p: Particle, dt: real, k: nat): Particle
    {
      if k == 0 then p else AdvancedParticle(s, AdvancedTimes(s, p, dt, k - 1), dt)
    }

    /** The substeps move particles but never change their velocities or
        previous positions. */
    lemma {:induction false} AdvancedTimesKeeps(s: GridState, p: Particle, dt: real, k: nat)
      ensures AdvancedTimes(s, p, dt, k).vel == p.vel && AdvancedTimes(s, p, dt, k).prevPos == p.prevPos
    {
      if k > 0 {
        var q := AdvancedTimes(s, p, dt, k - 1);
        AdvancedTimesKeeps(s, p, dt, k - 1);
        AdvancedParticleKeeps(s, q, dt);
        assert AdvancedTimes(s, p, dt, k) == AdvancedParticle(s, q, dt);
      }
    }

    /** The particles after grid_to_particle over the grid state s. */
    function BlendedAll(s: GridState, ps: seq<Particle>): seq<Particle>
    {
      seq(|ps|, n requires 0 <= n < |ps| => ps[n].(vel := BlendedVelocity(s, ps[n])))
    }

    /** The velocity face (a,b,c) of family ax hands to do_pressures in
        step_FLIP: its saved (star) value, less dt*g on a v face, and 0 on the
        faces apply_boundary_conditions clears. */
    function Prepared(ax: Axis, a: int, b: int, c: int, dt: real): real
      reads grid.uStar, grid.vStar, grid.wStar, grid.solid
      requires Valid() && grid.InFace(ax, a, b, c)
    {
      assert grid.Shaped(grid.Star(ax), ax);
      if Zeroed(ax, a, b, c) then 0.0
      else if ax == Y then grid.Star(Y)[a, b, c] - dt * gravityMag
      else grid.Star(ax)[a, b, c]
    }

    /** The right-hand side entry of cell (i,j,k) in step_FLIP:
        density*dx/dt times the negative divergence of the prepared field for
        a fluid cell, 0 for any other. */
    function PreparedRhs(i: int, j: int, k: int, dt: real): real
      reads grid.uStar, grid.vStar, grid.wStar, grid.fluid, grid.solid
      requires Valid() && grid.InCell(i, j, k) && dt != 0.0
    {
      if grid.fluid[i, j, k]
      then ScaledRhs(fluidDensity, grid.cellSizeX,
                     -((Prepared(X, i + 1, j, k, dt) - Prepared(X, i, j, k, dt))
                       + (Prepared(Y, i, j + 1, k, dt) - Prepared(Y, i, j, k, dt))
                       + (Prepared(Z, i, j, k + 1, dt) - Prepared(Z, i, j, k, dt))), dt)
      else 0.0
    }

    /** The velocity of face (a,b,c) at the end of the grid phases of
        step_FLIP: the prepared value, moved against the pressure difference
        across the face when it is the lower face of a cell off the lower
        boundary. */
    function Projected(ax: Axis, a: int, b: int, c: int, dt: real): real
      reads grid.uStar, grid.vStar, grid.wStar, grid.solid, grid.pressure
      requires Valid() && grid.InFace(ax, a, b, c) && fluidDensity != 0.0
    {
      if grid.InCell(a, b, c) then AfterGradient(ax, a, b, c, Prepared(ax, a, b, c, dt), dt / (grid.cellSizeX * fluidDensity))
      else Prepared(ax, a, b, c, dt)
    }

    /** The grid after steps 1 to 4 of step_FLIP for the particles ps, the
        step dt and the solver's answer p: the cells are classified; the
        intermediate fields hold the extrapolated velocity field (as the
        visited flags and normalised fields describe); the pressure matrix is
        that of the fluid cells and the right-hand side that of the prepared
        field; every pressure is p's entry at the cell's flat index; and
        every face holds its projected velocity. */
    ghost predicate GridStepped(visU: array3<bool>, visV: array3<bool>, visW: array3<bool>,
                                normU: seq<seq<seq<real>>>, normV: seq<seq<seq<real>>>, normW: seq<seq<seq<real>>>,
                                ps: seq<Particle>, dt: real, p: seq<real>)
      reads this, grid.fluid, grid.solid, grid.uStar, grid.vStar, grid.wStar
      reads grid.weightsU, grid.weightsV, grid.weightsW, visU, visV, visW
      reads grid.u, grid.v, grid.w, grid.pressure
    {
      && Valid() && dt != 0.0 && fluidDensity != 0.0
      && Classified(ps)
      && Extrapolated(X, grid.uStar, visU, normU, ps)
      && Extrapolated(Y, grid.vStar, visV, normV, ps)
      && Extrapolated(Z, grid.wStar, visW, normW, ps)
      && A == MatrixTriplets3(Flags(grid.fluid), grid.aDiag, grid.N, grid.M, grid.L)
      && Solved(dt, p)
    }

    /** The pressure system and the field that do_pressures leaves, with the
        solver's answer p, after the prepared field was handed to it. */
    ghost predicate Solved(dt: real, p: seq<real>)
      reads this, grid.fluid, grid.solid, grid.uStar, grid.vStar, grid.wStar
      reads grid.u, grid.v, grid.w, grid.pressure
      requires Valid() && dt != 0.0 && fluidDensity != 0.0
    {
      && |d| == grid.N * grid.M * grid.L
      && (forall a, b, c | grid.InCell(a, b, c) ::
            0 <= Flat3(grid.N, grid.M, a, b, c) < |d| && d[Flat3(grid.N, grid.M, a, b, c)] == PreparedRhs(a, b, c, dt))
      && (forall a, b, c | grid.InCell(a, b, c) ::
            0 <= Flat3(grid.N, grid.M, a, b, c) < |p| && grid.pressure[a, b, c] == p[Flat3(grid.N, grid.M, a, b, c)])
      && (forall ax, a, b, c | grid.InFace(ax, a, b, c) :: grid.Vel(ax)[a, b, c] == Projected(ax, a, b, c, dt))
    }

    /** step_FLIP: compute_velocity_field, set_uvw_star, apply_forces,
        apply_boundary_conditions and do_pressures on the grid, then
        grid_to_particle, compute_timestep and ceil(dt/dtNew) passes of
        advance_particles. Afterwards the grid is as GridStepped describes
        for the original particles, dtNew is the CFL step of the blended
        velocities, and each particle is its blended self advanced
        numSubsteps times over the final grid. */
    method StepFlip(dt: real, step: int, p: seq<real>)
      returns (visU: array3<bool>, visV: array3<bool>, visW: array3<bool>,
               ghost normU: seq<seq<seq<real>>>, ghost normV: seq<seq<seq<real>>>, ghost normW: seq<seq<seq<real>>>,
               dtNew: real, numSubsteps: nat)
      requires Valid() && ParticlesInGrid() && 0.0 < dt && fluidDensity != 0.0 && |p| == grid.N * grid.M * grid.L
      modifies particles, grid.u, grid.v, grid.w, grid.uStar, grid.vStar, grid.wStar
      modifies grid.weightsU, grid.weightsV, grid.weightsW, grid.fluid, grid.pressure, this`A, this`d
      ensures fresh(visU) && fresh(visV) && fresh(visW)
      ensures GridStepped(visU, visV, visW, normU, normV, normW, old(particles[..]), dt, p)
      ensures var bs := BlendedAll(Snapshot(), old(particles[..]));
        dtNew == CflTimestep(dt, grid.cellSizeX, grid.cellSizeY, grid.cellSizeZ,
                             LargestComponent(bs, X), LargestComponent(bs, Y), LargestComponent(bs, Z))
      ensures 0.0 < dtNew <= dt && numSubsteps == Ceil(dt / dtNew)
      ensures forall n | 0 <= n < particles.Length ::
        particles[n] == AdvancedTimes(Snapshot(), BlendedAll(Snapshot(), old(particles[..]))[n], dtNew, numSubsteps)
    {
      ghost var ps := particles[..];
      visU, visV, visW, normU, normV, normW := GridUpdate(dt, p, ps);
      ghost var stepped := GridStepped(visU, visV, visW, normU, normV, normW, ps, dt, p);
      dtNew, numSubsteps := ParticlePhase(dt, step, ps, visU, visV, visW);
      assert GridStepped(visU, visV, visW, normU, normV, normW, ps, dt, p) == stepped;
    }

    /** Steps 5 to 7 of step_FLIP: grid_to_particle, compute_timestep and the
        passes of advance_particles. They touch only the particles, so the
        grid, the flags and the pressure system are left as they were. */
    method ParticlePhase(dt: real, step: int, ghost ps: seq<Particle>,
                         ghost visU: array3<bool>, ghost visV: array3<bool>, ghost visW: array3<bool>)
      returns (dtNew: real, numSubsteps: nat)
      requires Valid() && 0.0 < dt && ps == particles[..]
      modifies particles
      ensures unchanged(this, grid.fluid, grid.solid, grid.uStar, grid.vStar, grid.wStar)
      ensures unchanged(grid.weightsU, grid.weightsV, grid.weightsW, visU, visV, visW)
      ensures unchanged(grid.u, grid.v, grid.w, grid.pressure)
      ensures var bs := BlendedAll(Snapshot(), ps);
        dtNew == CflTimestep(dt, grid.cellSizeX, grid.cellSizeY, grid.cellSizeZ,
                             LargestComponent(bs, X), LargestComponent(bs, Y), LargestComponent(bs, Z))
      ensures 0.0 < dtNew <= dt && numSubsteps == Ceil(dt / dtNew)
      ensures forall n | 0 <= n < particles.Length ::
        particles[n] == AdvancedTimes(Snapshot(), BlendedAll(Snapshot(), ps)[n], dtNew, numSubsteps)
    {
      dtNew := BlendAndTimestep(dt, ps);
      ghost var s := Snapshot();
      QuotientPositive(dt, dtNew);
      numSubsteps := Ceil(dt / dtNew);
      Substeps(dtNew, step, numSubsteps, BlendedAll(s, ps));
      assert Snapshot() == s;
    }

    /** Steps 5 and 6 of step_FLIP: grid_to_particle and compute_timestep.
        They touch only the particles, so the grid stays as GridStepped
        describes. */
    method BlendAndTimestep(dt: real, ghost ps: seq<Particle>) returns (dtNew: real)
      requires Valid() && 0.0 < dt && ps == particles[..]
      modifies particles
      ensures particles[..] == BlendedAll(Snapshot(), ps)
      ensures var bs := BlendedAll(Snapshot(), ps);
        dtNew == CflTimestep(dt, grid.cellSizeX, grid.cellSizeY, grid.cellSizeZ,
                             LargestComponent(bs, X), LargestComponent(bs, Y), LargestComponent(bs, Z))
      ensures 0.0 < dtNew <= dt
    {
      ghost var s := Snapshot();
      GridToParticle();
      assert Snapshot() == s;
      assert particles[..] == BlendedAll(s, ps);
      dtNew := ComputeTimestep(dt);
    }

    /** Steps 1 to 4 of step_FLIP, on the grid alone. */
    method GridUpdate(dt: real, p: seq<real>, ghost ps: seq<Particle>)
      returns (visU: array3<bool>, visV: array3<bool>, visW: array3<bool>,
               ghost normU: seq<seq<seq<real>>>, ghost normV: seq<seq<seq<real>>>, ghost normW: seq<seq<seq<real>>>)
      requires Valid() && ParticlesInGrid() && dt != 0.0 && fluidDensity != 0.0 && |p| == grid.N * grid.M * grid.L
      requires ps == particles[..]
      modifies grid.u, grid.v, grid.w, grid.uStar, grid.vStar, grid.wStar
      modifies grid.weightsU, grid.weightsV, grid.weightsW, grid.fluid, grid.pressure, this`A, this`d
      ensures fresh(visU) && fresh(visV) && fresh(visW)
      ensures GridStepped(visU, visV, visW, normU, normV, normW, ps, dt, p)
    {
      visU, visV, visW, normU, normV, normW := ComputeVelocityField();
      assert particles[..] == ps;
      CopyToStar(visU, visV, visW, normU, normV, normW, ps);
      ForcesAndPressures(dt, p, visU, visV, visW);
    }

    /** Steps 2 to 4 of step_FLIP after set_uvw_star, which left the velocity
        field equal to its saved copy: they change the velocity field, the
        pressures and the system, nothing else, and leave them as Solved
        states. */
    method ForcesAndPressures(dt: real, p: seq<real>, visU: array3<bool>, visV: array3<bool>, visW: array3<bool>)
      requires Valid() && dt != 0.0 && fluidDensity != 0.0 && |p| == grid.N * grid.M * grid.L
      requires forall ax, a, b, c | grid.InFace(ax, a, b, c) :: grid.Vel(ax)[a, b, c] == grid.Star(ax)[a, b, c]
      modifies grid.u, grid.v, grid.w, grid.pressure, this`A, this`d
      ensures A == MatrixTriplets3(Flags(grid.fluid), grid.aDiag, grid.N, grid.M, grid.L)
      ensures Solved(dt, p)
      ensures unchanged(grid.uStar, grid.vStar, grid.wStar, grid.weightsU, grid.weightsV, grid.weightsW)
      ensures unchanged(visU, visV, visW, grid.fluid, grid.solid)
    {
      assert grid.Star(X) == grid.uStar && grid.Star(Y) == grid.vStar && grid.Star(Z) == grid.wStar;
      assert grid.Weights(X) == grid.weightsU && grid.Weights(Y) == grid.weightsV && grid.Weights(Z) == grid.weightsW;
      assert grid.Vel(X) == grid.u && grid.Vel(Y) == grid.v && grid.Vel(Z) == grid.w;
      ForcesAndBoundaries(dt);
      forall a, b, c | grid.InCell(a, b, c)
        ensures CellRhs(a, b, c, dt) == PreparedRhs(a, b, c, dt)
      {
        PreparedRhsAgrees(a, b, c, dt);
      }
      PressuresOfPrepared(dt, p);
    }

    /** do_pressures on the prepared field: the system, the pressures and the
        projected field of Solved. */
    method PressuresOfPrepared(dt: real, p: seq<real>)
      requires Valid() && dt != 0.0 && fluidDensity != 0.0 && |p| == grid.N * grid.M * grid.L
      requires forall ax, a, b, c | grid.InFace(ax, a, b, c) :: grid.Vel(ax)[a, b, c] == Prepared(ax, a, b, c, dt)
      requires forall a, b, c | grid.InCell(a, b, c) :: CellRhs(a, b, c, dt) == PreparedRhs(a, b, c, dt)
      modifies grid.u, grid.v, grid.w, grid.pressure, this`A, this`d
      ensures A == MatrixTriplets3(Flags(grid.fluid), grid.aDiag, grid.N, grid.M, grid.L)
      ensures Solved(dt, p)
    {
      assert grid.Star(X) == grid.uStar && grid.Star(Y) == grid.vStar && grid.Star(Z) == grid.wStar;
      assert grid.Vel(X) == grid.u && grid.Vel(Y) == grid.v && grid.Vel(Z) == grid.w;
      PressureApart();
      DoPressures(dt, p);
      assert unchanged(grid.uStar, grid.vStar, grid.wStar, grid.solid, grid.fluid);
      assert forall a, b, c | grid.InCell(a, b, c) ::
        0 <= Flat3(grid.N, grid.M, a, b, c) < |d| && d[Flat3(grid.N, grid.M, a, b, c)] == PreparedRhs(a, b, c, dt);
      forall ax, a, b, c | grid.InFace(ax, a, b, c)
        ensures grid.Vel(ax)[a, b, c] == Projected(ax, a, b, c, dt)
      {
        assert Prepared(ax, a, b, c, dt) == old(Prepared(ax, a, b, c, dt));
      }
    }

    /** apply_forces then apply_boundary_conditions on a field equal to its
        saved copy: every face ends at its prepared value. */
    method ForcesAndBoundaries(dt: real)
      requires Valid()
      requires forall ax, a, b, c | grid.InFace(ax, a, b, c) :: grid.Vel(ax)[a, b, c] == grid.Star(ax)[a, b, c]
      modifies grid.u, grid.v, grid.w
      ensures forall ax, a, b, c | grid.InFace(ax, a, b, c) :: grid.Vel(ax)[a, b, c] == Prepared(ax, a, b, c, dt)
      ensures BoundaryClean()
    {
      assert grid.Vel(X) == grid.u && grid.Vel(Y) == grid.v && grid.Vel(Z) == grid.w;
      ApplyForces(dt);
      ApplyBoundaryConditions();
    }

    /** Once every face holds its prepared value, the right-hand side
        compute_pressure_rhs computes for a cell is PreparedRhs. */
    lemma PreparedRhsAgrees(i: int, j: int, k: int, dt: real)
      requires Valid() && grid.InCell(i, j, k) && dt != 0.0 && BoundaryClean()
      requires forall ax, a, b, c | grid.InFace(ax, a, b, c) :: grid.Vel(ax)[a, b, c] == Prepared(ax, a, b, c, dt)
      ensures CellRhs(i, j, k, dt) == PreparedRhs(i, j, k, dt)
    {
      if grid.fluid[i, j, k] {
        RhsAfterBoundaries(i, j, k);
        assert grid.InFace(X, i, j, k) && grid.InFace(X, i + 1, j, k);
        assert grid.InFace(Y, i, j, k) && grid.InFace(Y, i, j + 1, k);
        assert grid.InFace(Z, i, j, k) && grid.InFace(Z, i, j, k + 1);
      }
    }

    /** set_uvw_star right after compute_velocity_field: the intermediate
        fields take the extrapolated velocity field. */
    method CopyToStar(visU: array3<bool>, visV: array3<bool>, visW: array3<bool>,
                      ghost normU: seq<seq<seq<real>>>, ghost normV: seq<seq<seq<real>>>, ghost normW: seq<seq<seq<real>>>,
                      ghost ps: seq<Particle>)
      requires Valid()
      requires Extrapolated(X, grid.u, visU, normU, ps) && Extrapolated(Y, grid.v, visV, normV, ps)
        && Extrapolated(Z, grid.w, visW, normW, ps)
      modifies grid.uStar, grid.vStar, grid.wStar
      ensures Extrapolated(X, grid.uStar, visU, normU, ps) && Extrapolated(Y, grid.vStar, visV, normV, ps)
        && Extrapolated(Z, grid.wStar, visW, normW, ps)
      ensures forall ax, a, b, c | grid.InFace(ax, a, b, c) :: grid.Vel(ax)[a, b, c] == grid.Star(ax)[a, b, c]
    {
      grid.SetUVWStar();
    }

    /** The loop of step_FLIP: count passes of advance_particles with step
        dtNew. The grid does not change, so every pass uses the same state
        and the grid stays as GridStepped describes. */
    method Substeps(dtNew: real, step: int, count: nat, ghost qs: seq<Particle>)
      requires Valid() && qs == particles[..]
      modifies particles
      ensures Snapshot() == old(Snapshot())
      ensures forall n | 0 <= n < particles.Length :: particles[n] == AdvancedTimes(Snapshot(), qs[n], dtNew, count)
    {
      ghost var s := Snapshot();
      var i := 0;
      while i < count
        invariant 0 <= i <= count && s == Snapshot()
        invariant forall n | 0 <= n < particles.Length :: particles[n] == AdvancedTimes(s, qs[n], dtNew, i)
      {
        AdvanceParticles(dtNew, step);
        i := i + 1;
      }
    }
  }

  // ---------------------------------------------------------------------------
  // The loops of compute_pressure_matrix, over the fluid flags fl of the grid
  // (which these loops do not change) and its A_diag_ entries.

  /** The loop over the planes k. */
  method MatrixPlanes(fl: seq<seq<seq<bool>>>, diag: seq<Triplet>, n: int, m: int, l: int) returns (triplets: seq<Triplet>)
    requires MatrixInputs3(fl, diag, n, m, l)
    ensures triplets == Planes3(fl, diag, n, m, l, l)
  {
    triplets := [];
    var cellidx := 0;
    var k := 0;
    while k < l
      invariant 0 <= k <= l
      invariant cellidx == Flat3(n, m, 0, 0, k)
      invariant triplets == Planes3(fl, diag, n, m, l, k)
    {
      triplets, cellidx := MatrixPlaneStep(fl, diag, n, m, l, k, cellidx, triplets);
      k := k + 1;
    }
  }

  /** One pass of the k-loop body: plane k is appended and the cell index
      moves to the start of plane k+1. */
  method MatrixPlaneStep(fl: seq<seq<seq<bool>>>, diag: seq<Triplet>, n: int, m: int, l: int,
                         k: int, cellidx: int, triplets: seq<Triplet>) returns (triplets': seq<Triplet>, cellidx': int)
    requires MatrixInputs3(fl, diag, n, m, l) && 0 <= k < l
    requires cellidx == Flat3(n, m, 0, 0, k) && triplets == Planes3(fl, diag, n, m, l, k)
    ensures cellidx' == Flat3(n, m, 0, 0, k + 1) && triplets' == Planes3(fl, diag, n, m, l, k + 1)
  {
    var plane := MatrixPlane(fl, diag, n, m, l, k, cellidx);
    triplets' := triplets + plane;
    Flat3Step(n, m, 0, 0, k);
    cellidx' := cellidx + n * m;
  }

  /** The loop over the rows j of plane k, starting at flat index base. */
  method MatrixPlane(fl: seq<seq<seq<bool>>>, diag: seq<Triplet>, n: int, m: int, l: int, k: int, base: int)
    returns (plane: seq<Triplet>)
    requires MatrixInputs3(fl, diag, n, m, l) && 0 <= k < l && base == Flat3(n, m, 0, 0, k)
    ensures plane == PlanePrefix3(fl, diag, n, m, l, m, k)
  {
    plane := [];
    var cellidx := base;
    var j := 0;
    while j < m
      invariant 0 <= j <= m
      invariant cellidx == Flat3(n, m, 0, j, k)
      invariant plane == PlanePrefix3(fl, diag, n, m, l, j, k)
    {
      plane, cellidx := MatrixRowStep(fl, diag, n, m, l, j, k, cellidx, plane);
      j := j + 1;
    }
  }

  /** One pass of the j-loop body: row j is appended and the cell index
      moves to the start of row j+1. */
  method MatrixRowStep(fl: seq<seq<seq<bool>>>, diag: seq<Triplet>, n: int, m: int, l: int,
                       j: int, k: int, cellidx: int, plane: seq<Triplet>) returns (plane': seq<Triplet>, cellidx': int)
    requires MatrixInputs3(fl, diag, n, m, l) && 0 <= j < m && 0 <= k < l
    requires cellidx == Flat3(n, m, 0, j, k) && plane == PlanePrefix3(fl, diag, n, m, l, j, k)
    ensures cellidx' == Flat3(n, m, 0, j + 1, k) && plane' == PlanePrefix3(fl, diag, n, m, l, j + 1, k)
  {
    var row := MatrixRow(fl, diag, n, m, l, j, k, cellidx);
    plane' := plane + row;
    Flat3Step(n, m, 0, j, k);
    cellidx' := cellidx + n;
  }

  /** The loop over the cells i of row j of plane k. */
  method MatrixRow(fl: seq<seq<seq<bool>>>, diag: seq<Triplet>, n: int, m: int, l: int, j: int, k: int, base: int)
    returns (row: seq<Triplet>)
    requires MatrixInputs3(fl, diag, n, m, l) && 0 <= j < m && 0 <= k < l && base == Flat3(n, m, 0, j, k)
    ensures row == RowPrefix3(fl, diag, n, m, l, n, j, k)
  {
    row := [];
    var cellidx := base;
    var i := 0;
    while i < n
      invariant 0 <= i <= n
      invariant cellidx == Flat3(n, m, i, j, k)
      invariant row == RowPrefix3(fl, diag, n, m, l, i, j, k)
    {
      var ts := MatrixCell(fl, diag, n, m, l, i, j, k, cellidx);
      row := row + ts;
      i, cellidx := i + 1, cellidx + 1;
    }
  }

  /** The pushes for one cell: its A_diag_ entry, then for a fluid cell the
      pairs toward its fluid upper neighbours along x, y and z. */
  method MatrixCell(fl: seq<seq<seq<bool>>>, diag: seq<Triplet>, n: int, m: int, l: int,
                    i: int, j: int, k: int, cellidx: int) returns (ts: seq<Triplet>)
    requires MatrixInputs3(fl, diag, n, m, l) && 0 <= i < n && 0 <= j < m && 0 <= k < l
    requires cellidx == Flat3(n, m, i, j, k)
    ensures ts == CellTriplets3(fl, diag, n, m, l, i, j, k)
  {
    Flat3Bounds(n, m, l, i, j, k);
    ts := [diag[i + j * n + n * m * k]];
    if fl[i][j][k] {
      var tx, ty, tz := [], [], [];
      if i + 1 < n && fl[i + 1][j][k] {
        tx := [Triplet(cellidx, cellidx + 1, -1.0), Triplet(cellidx + 1, cellidx, -1.0)];
      }
      if j + 1 < m && fl[i][j + 1][k] {
        ty := [Triplet(cellidx, cellidx + n, -1.0), Triplet(cellidx + n, cellidx, -1.0)];
      }
      if k + 1 < l && fl[i][j][k + 1] {
        tz := [Triplet(cellidx, cellidx + n * m, -1.0), Triplet(cellidx + n * m, cellidx, -1.0)];
      }
      assert tx == UpperPair(fl, n, m, l, i, j, k, X);
      assert ty == UpperPair(fl, n, m, l, i, j, k, Y);
      assert tz == UpperPair(fl, n, m, l, i, j, k, Z);
      ts := ts + (tx + ty + tz);
    }
  }
}
