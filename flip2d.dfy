/**
 * The 2D FLIP engine: particles in an array, a Mac2d grid, and the phases of
 * one substep as methods that update the grid buffers and the particles in
 * place. The pressure matrix is kept as its triplet list and the right-hand
 * side as a sequence; the linear solve is replaced by the pressure vector
 * handed to DoPressures.
 */
module Flip2dEngine {
  import opened Common
  import opened Mac2dGrid
  import opened Flip2dSpec

  /** Face or cell (a,b) lies in the (2hx+1) x (2hy+1) block around cell (cx,cy). */
  predicate Near(a: int, b: int, cx: int, cy: int, hx: int, hy: int)
  {
    cx - hx <= a <= cx + hx && cy - hy <= b <= cy + hy
  }

  /** Along a face buffer, value - c*weight is the same in (u1,w1) as in (u0,w0):
      what accumulation with velocity component c keeps. */
  predicate ResidualKept(c: real, u0: seq<real>, w0: seq<real>, u1: seq<real>, w1: seq<real>)
  {
    |u0| == |w0| == |u1| == |w1| && forall x | 0 <= x < |u1| :: u1[x] - c * w1[x] == u0[x] - c * w0[x]
  }

  lemma ResidualKeptTrans(c: real, u0: seq<real>, w0: seq<real>, u1: seq<real>, w1: seq<real>, u2: seq<real>, w2: seq<real>)
    requires ResidualKept(c, u0, w0, u1, w1) && ResidualKept(c, u1, w1, u2, w2)
    ensures ResidualKept(c, u0, w0, u2, w2)
  {
  }

  /** A face whose residual value - c*weight starts and stays 0 normalises to c. */
  lemma NormalisedUniform(c: real, value0: real, weight0: real, value: real, weight: real)
    requires value - c * weight == value0 - c * weight0 && value0 == c * weight0 && weight != 0.0
    ensures value / weight == c
  {
    assert value == c * weight;
  }

  /** Particle-to-grid transfer reproduces a uniform velocity: if accumulation
      kept value - c*weight (all particles moving with c), a face that started
      at c times its weight and ends with nonzero weight normalises to c. */
  lemma UniformTransfer(c: real, u0: seq<real>, w0: seq<real>, uAcc: seq<real>, w: seq<real>, u: seq<real>)
    requires ResidualKept(c, u0, w0, uAcc, w) && |u| == |uAcc|
    requires forall x | 0 <= x < |u| :: u[x] == if w[x] != 0.0 then uAcc[x] / w[x] else uAcc[x]
    ensures forall x | 0 <= x < |u| && u0[x] == c * w0[x] && w[x] != 0.0 :: u[x] == c
  {
    forall x | 0 <= x < |u| && u0[x] == c * w0[x] && w[x] != 0.0
      ensures u[x] == c
    {
      NormalisedUniform(c, u0[x], w0[x], uAcc[x], w[x]);
    }
  }

  /** The u rectangle as grid_to_particle picks it for the particle at height y
      in cell (first, second): columns first and first+1, and the row pair by the
      half-cell test on y. */
  method UStencilFor(first: int, second: int, y: real, sy: real) returns (st: Stencil)
    ensures st == UStencil(first, second, y, sy) && UnitStencil(st)
  {
    var ix1 := first;
    var ix2 := ix1 + 1;
    var iy1, iy2;
    if y > (second as real + 0.5) * sy {
      iy1 := second;
      iy2 := iy1 + 1;
    } else {
      iy2 := second;
      iy1 := iy2 - 1;
    }
    st := Stencil(ix1, ix2, iy1, iy2);
  }

  /** The v rectangle: rows second and second+1, and the column pair by the
      half-cell test on x. */
  method VStencilFor(first: int, second: int, x: real, sx: real) returns (st: Stencil)
    ensures st == VStencil(first, second, x, sx) && UnitStencil(st)
  {
    var iy1 := second;
    var iy2 := iy1 + 1;
    var ix1, ix2;
    if x > (first as real + 0.5) * sx {
      ix1 := first;
      ix2 := ix1 + 1;
    } else {
      ix2 := first;
      ix1 := ix2 - 1;
    }
    st := Stencil(ix1, ix2, iy1, iy2);
  }

  class Flip2d {
    const grid: Mac2d
    const particles: array<Particle>
    const fluidDensity: real
    const gravityMag: real
    /** The kernel constant 315/(64*pi*h^9) for h = cell_sizex. */
    const kernelCoeff: real
    /** The pressure matrix A_, as the triplet list it is built from. */
    var A: seq<Triplet>
    /** The right-hand side d_. */
    var d: seq<real>

    predicate Valid()
    {
      grid.Valid() && 0.0 < grid.sizeX && 0.0 < kernelCoeff
    }

    constructor (ps: array<Particle>, g: Mac2d, density: real, gravity: real, coeff: real)
      requires g.Valid() && 0.0 < g.sizeX && 0.0 < coeff
      ensures Valid() && particles == ps && grid == g
      ensures fluidDensity == density && gravityMag == gravity && kernelCoeff == coeff
    {
      particles, grid := ps, g;
      fluidDensity, gravityMag, kernelCoeff := density, gravity, coeff;
    }

    lemma CellSizesPositive()
      requires Valid()
      ensures 0.0 < grid.cellSizeX && grid.cellSizeY == grid.cellSizeX
      ensures grid.cellSizeX <= grid.cellSizeX * (grid.N as real)
      ensures grid.cellSizeY <= grid.cellSizeY * (grid.M as real)
    {
      var c := grid.cellSizeX;
      assert c * (grid.N as real) - c == c * ((grid.N - 1) as real);
      assert c * (grid.M as real) - c == c * ((grid.M - 1) as real);
    }

    /** The domain extents advance_particles clamps to: cell size times cell count. */
    function DomainX(): real { grid.cellSizeX * (grid.N as real) }
    function DomainY(): real { grid.cellSizeY * (grid.M as real) }

    // -------------------------------------------------------------------------
    // advance_particles

    /** Every particle's position becomes its Euler (step 0) or leapfrog
        successor, reset into the domain; velocities and previous positions
        stay. By Advanced and CellSizesPositive every x ends in [0, N*cell_sizex]
        and every y in [0, M*cell_sizey]. */
    method AdvanceParticles(dt: real, step: int)
      requires Valid()
      modifies particles
      ensures forall n | 0 <= n < particles.Length ::
        particles[n] == Advanced(old(particles[n]), dt, step, grid.cellSizeX, grid.cellSizeY, DomainX(), DomainY())
    {
      var n := 0;
      while n < particles.Length
        invariant 0 <= n <= particles.Length
        invariant forall k | 0 <= k < n ::
          particles[k] == Advanced(old(particles[k]), dt, step, grid.cellSizeX, grid.cellSizeY, DomainX(), DomainY())
        invariant forall k | n <= k < particles.Length :: particles[k] == old(particles[k])
      {
        var next := AdvanceOne(particles[n], dt, step);
        particles[n] := next;
        n := n + 1;
      }
    }

    /** The body of advance_particles' loop for one particle. */
    method AdvanceOne(p: Particle, dt: real, step: int) returns (q: Particle)
      requires Valid()
      ensures q == Advanced(p, dt, step, grid.cellSizeX, grid.cellSizeY, DomainX(), DomainY())
    {
      var posPrev := p.prevPos;
      var posCurr := p.pos;
      var vel := p.vel;
      var posNext := if step == 0 then Add(posCurr, Scale(dt, vel)) else Add(posPrev, Scale(2.0 * dt, vel));
      var x := posNext.x;
      var y := posNext.y;
      var sizeX := grid.cellSizeX * (grid.N as real);
      var sizeY := grid.cellSizeY * (grid.M as real);
      if x < 0.0 {
        posNext := posNext.(x := grid.cellSizeX * 0.25);
      }
      if x > sizeX {
        posNext := posNext.(x := sizeX - grid.cellSizeX * 0.25);
      }
      if y < 0.0 {
        posNext := posNext.(y := grid.cellSizeY * 0.25);
      }
      if y > sizeY {
        posNext := posNext.(y := sizeY - grid.cellSizeY * 0.25);
      }
      q := p.(pos := posNext);
    }

    // -------------------------------------------------------------------------
    // apply_forces

    /** Gravity: dt*g is added to every v face, j = 0..M; u is not touched. */
    method ApplyForces(dt: real)
      requires Valid()
      modifies grid.v
      ensures forall a, b | grid.InV(a, b) :: grid.GetV(a, b) == old(grid.GetV(a, b)) + dt * gravityMag
    {
      var j := 0;
      while j <= grid.M
        invariant 0 <= j <= grid.M + 1
        invariant forall a, b | grid.InV(a, b) ::
          grid.GetV(a, b) == old(grid.GetV(a, b)) + (if b < j then dt * gravityMag else 0.0)
      {
        var i := 0;
        while i < grid.N
          invariant 0 <= i <= grid.N
          invariant forall a, b | grid.InV(a, b) ::
            grid.GetV(a, b) == old(grid.GetV(a, b)) + (if Before2(a, b, i, j) then dt * gravityMag else 0.0)
        {
          grid.SetV(i, j, grid.GetV(i, j) + dt * gravityMag);
          i := i + 1;
        }
        j := j + 1;
      }
    }

    // -------------------------------------------------------------------------
    // Particle-to-grid transfer

    /** accumulate_u: inside the kernel the face gains W*vel.x and its weight
        gains W > 0; nothing else changes. u - vel.x*weight is kept everywhere. */
    method AccumulateU(pos: Vec3, vel: Vec3, gc: Vec3, h: real, i: int, j: int)
      requires Valid() && grid.InU(i, j)
      modifies grid.u, grid.weightsU
      ensures CheckThreshold(pos, gc, h) ==>
        grid.GetU(i, j) == old(grid.GetU(i, j)) + Weight(kernelCoeff, pos, gc, h) * vel.x
        && grid.GetWeightsU(i, j) == old(grid.GetWeightsU(i, j)) + Weight(kernelCoeff, pos, gc, h)
      ensures !CheckThreshold(pos, gc, h) ==>
        grid.u[..] == old(grid.u[..]) && grid.weightsU[..] == old(grid.weightsU[..])
      ensures forall a, b | grid.InU(a, b) && (a != i || b != j) ::
        grid.GetU(a, b) == old(grid.GetU(a, b)) && grid.GetWeightsU(a, b) == old(grid.GetWeightsU(a, b))
      ensures forall x | 0 <= x < grid.weightsU.Length :: grid.weightsU[x] >= old(grid.weightsU[x])
      ensures ResidualKept(vel.x, old(grid.u[..]), old(grid.weightsU[..]), grid.u[..], grid.weightsU[..])
    {
      if CheckThreshold(pos, gc, h) {
        var uPrev := grid.GetU(i, j);
        var w := Weight(kernelCoeff, pos, gc, h);
        AcceptedWeightPositive(kernelCoeff, pos, gc, h);
        grid.SetU(i, j, uPrev + w * vel.x);
        var wPrev := grid.GetWeightsU(i, j);
        grid.SetWeightsU(i, j, wPrev + w);
        assert vel.x * (wPrev + w) == vel.x * wPrev + w * vel.x;
      }
    }

    /** accumulate_v: the same for a v face and vel.y. */
    method AccumulateV(pos: Vec3, vel: Vec3, gc: Vec3, h: real, i: int, j: int)
      requires Valid() && grid.InV(i, j)
      modifies grid.v, grid.weightsV
      ensures CheckThreshold(pos, gc, h) ==>
        grid.GetV(i, j) == old(grid.GetV(i, j)) + Weight(kernelCoeff, pos, gc, h) * vel.y
        && grid.GetWeightsV(i, j) == old(grid.GetWeightsV(i, j)) + Weight(kernelCoeff, pos, gc, h)
      ensures !CheckThreshold(pos, gc, h) ==>
        grid.v[..] == old(grid.v[..]) && grid.weightsV[..] == old(grid.weightsV[..])
      ensures forall a, b | grid.InV(a, b) && (a != i || b != j) ::
        grid.GetV(a, b) == old(grid.GetV(a, b)) && grid.GetWeightsV(a, b) == old(grid.GetWeightsV(a, b))
      ensures forall x | 0 <= x < grid.weightsV.Length :: grid.weightsV[x] >= old(grid.weightsV[x])
      ensures ResidualKept(vel.y, old(grid.v[..]), old(grid.weightsV[..]), grid.v[..], grid.weightsV[..])
    {
      if CheckThreshold(pos, gc, h) {
        var vPrev := grid.GetV(i, j);
        var w := Weight(kernelCoeff, pos, gc, h);
        AcceptedWeightPositive(kernelCoeff, pos, gc, h);
        grid.SetV(i, j, vPrev + w * vel.y);
        var wPrev := grid.GetWeightsV(i, j);
        grid.SetWeightsV(i, j, wPrev + w);
        assert vel.y * (wPrev + w) == vel.y * wPrev + w * vel.y;
      }
    }

    /** One iteration of the i-loop at (i,j): the left edge u(i,j) and then the
        lower edge v(i,j), each when it lies inside the grid; grid point `gc`
        comes in from the previous iteration and the last one goes out. */
    method AccumulateCell(pos: Vec3, vel: Vec3, h: real, i: int, j: int, gc0: Vec3) returns (gc: Vec3)
      requires Valid()
      modifies grid.u, grid.weightsU, grid.v, grid.weightsV
      ensures forall a, b | grid.InU(a, b) && (a != i || b != j) ::
        grid.GetU(a, b) == old(grid.GetU(a, b)) && grid.GetWeightsU(a, b) == old(grid.GetWeightsU(a, b))
      ensures forall a, b | grid.InV(a, b) && (a != i || b != j) ::
        grid.GetV(a, b) == old(grid.GetV(a, b)) && grid.GetWeightsV(a, b) == old(grid.GetWeightsV(a, b))
      ensures forall x | 0 <= x < grid.weightsU.Length :: grid.weightsU[x] >= old(grid.weightsU[x])
      ensures forall x | 0 <= x < grid.weightsV.Length :: grid.weightsV[x] >= old(grid.weightsV[x])
      ensures ResidualKept(vel.x, old(grid.u[..]), old(grid.weightsU[..]), grid.u[..], grid.weightsU[..])
      ensures ResidualKept(vel.y, old(grid.v[..]), old(grid.weightsV[..]), grid.v[..], grid.weightsV[..])
    {
      ghost var v0, wv0 := grid.v[..], grid.weightsV[..];
      gc := AccumulateLeftEdge(pos, vel, h, i, j, gc0);
      ghost var u1, wu1 := grid.u[..], grid.weightsU[..];
      assert grid.v[..] == v0 && grid.weightsV[..] == wv0;
      gc := AccumulateLowerEdge(pos, vel, h, i, j, gc);
      assert grid.u[..] == u1 && grid.weightsU[..] == wu1;
    }

    /** The u half of one i-loop iteration: when (i,j) is a u face the grid
        point moves to its centre and the face is accumulated. */
    method AccumulateLeftEdge(pos: Vec3, vel: Vec3, h: real, i: int, j: int, gc0: Vec3) returns (gc: Vec3)
      requires Valid()
      modifies grid.u, grid.weightsU
      ensures forall a, b | grid.InU(a, b) && (a != i || b != j) ::
        grid.GetU(a, b) == old(grid.GetU(a, b)) && grid.GetWeightsU(a, b) == old(grid.GetWeightsU(a, b))
      ensures forall x | 0 <= x < grid.weightsU.Length :: grid.weightsU[x] >= old(grid.weightsU[x])
      ensures ResidualKept(vel.x, old(grid.u[..]), old(grid.weightsU[..]), grid.u[..], grid.weightsU[..])
    {
      gc := gc0;
      if i >= 0 && j >= 0 && i <= grid.N && j < grid.M {
        gc := gc.(x := (i as real - 0.5) * grid.cellSizeX, y := j as real * grid.cellSizeY);
        AccumulateU(pos, vel, gc, h, i, j);
      }
    }

    /** The v half: when (i,j) is a v face the grid point is offset by half a
        cell from wherever it was left, and the face is accumulated. */
    method AccumulateLowerEdge(pos: Vec3, vel: Vec3, h: real, i: int, j: int, gc0: Vec3) returns (gc: Vec3)
      requires Valid()
      modifies grid.v, grid.weightsV
      ensures forall a, b | grid.InV(a, b) && (a != i || b != j) ::
        grid.GetV(a, b) == old(grid.GetV(a, b)) && grid.GetWeightsV(a, b) == old(grid.GetWeightsV(a, b))
      ensures forall x | 0 <= x < grid.weightsV.Length :: grid.weightsV[x] >= old(grid.weightsV[x])
      ensures ResidualKept(vel.y, old(grid.v[..]), old(grid.weightsV[..]), grid.v[..], grid.weightsV[..])
    {
      gc := gc0;
      if i >= 0 && j >= 0 && i < grid.N && j <= grid.M {
        gc := gc.(x := gc.x + 0.5 * grid.cellSizeX, y := gc.y - 0.5 * grid.cellSizeY);
        AccumulateV(pos, vel, gc, h, i, j);
      }
    }

    /** The i-loop at row j over the block's columns cx-hx .. cx+hx. */
    method AccumulateRow(pos: Vec3, vel: Vec3, h: real, cx: int, hx: int, j: int, gc0: Vec3) returns (gc: Vec3)
      requires Valid() && 0 <= hx
      modifies grid.u, grid.weightsU, grid.v, grid.weightsV
      ensures forall a, b | grid.InU(a, b) && !Near(a, b, cx, j, hx, 0) ::
        grid.GetU(a, b) == old(grid.GetU(a, b)) && grid.GetWeightsU(a, b) == old(grid.GetWeightsU(a, b))
      ensures forall a, b | grid.InV(a, b) && !Near(a, b, cx, j, hx, 0) ::
        grid.GetV(a, b) == old(grid.GetV(a, b)) && grid.GetWeightsV(a, b) == old(grid.GetWeightsV(a, b))
      ensures forall x | 0 <= x < grid.weightsU.Length :: grid.weightsU[x] >= old(grid.weightsU[x])
      ensures forall x | 0 <= x < grid.weightsV.Length :: grid.weightsV[x] >= old(grid.weightsV[x])
      ensures ResidualKept(vel.x, old(grid.u[..]), old(grid.weightsU[..]), grid.u[..], grid.weightsU[..])
      ensures ResidualKept(vel.y, old(grid.v[..]), old(grid.weightsV[..]), grid.v[..], grid.weightsV[..])
    {
      gc := gc0;
      var i := cx - hx;
      while i < cx + hx + 1
        invariant cx - hx <= i <= cx + hx + 1
        invariant forall a, b | grid.InU(a, b) && !(b == j && cx - hx <= a < i) ::
          grid.GetU(a, b) == old(grid.GetU(a, b)) && grid.GetWeightsU(a, b) == old(grid.GetWeightsU(a, b))
        invariant forall a, b | grid.InV(a, b) && !(b == j && cx - hx <= a < i) ::
          grid.GetV(a, b) == old(grid.GetV(a, b)) && grid.GetWeightsV(a, b) == old(grid.GetWeightsV(a, b))
        invariant forall x | 0 <= x < grid.weightsU.Length :: grid.weightsU[x] >= old(grid.weightsU[x])
        invariant forall x | 0 <= x < grid.weightsV.Length :: grid.weightsV[x] >= old(grid.weightsV[x])
        invariant ResidualKept(vel.x, old(grid.u[..]), old(grid.weightsU[..]), grid.u[..], grid.weightsU[..])
        invariant ResidualKept(vel.y, old(grid.v[..]), old(grid.weightsV[..]), grid.v[..], grid.weightsV[..])
      {
        ghost var u1, wu1, v1, wv1 := grid.u[..], grid.weightsU[..], grid.v[..], grid.weightsV[..];
        gc := AccumulateCell(pos, vel, h, i, j, gc);
        ResidualKeptTrans(vel.x, old(grid.u[..]), old(grid.weightsU[..]), u1, wu1, grid.u[..], grid.weightsU[..]);
        ResidualKeptTrans(vel.y, old(grid.v[..]), old(grid.weightsV[..]), v1, wv1, grid.v[..], grid.weightsV[..]);
        i := i + 1;
      }
    }

    /** The j/i loops of compute_velocity_field for one particle in cell (cx,cy):
        the faces of the block of half-widths hx, hy that lie inside the grid are
        accumulated, the grid point carried from one iteration to the next as the
        source carries grid_coord. Faces outside the block keep value and weight;
        weights only grow; u - vel.x*w and v - vel.y*w are kept. */
    method AccumulateParticle(pos: Vec3, vel: Vec3, h: real, cx: int, cy: int, hx: int, hy: int)
      requires Valid() && 0 <= hx && 0 <= hy
      modifies grid.u, grid.weightsU, grid.v, grid.weightsV
      ensures forall a, b | grid.InU(a, b) && !Near(a, b, cx, cy, hx, hy) ::
        grid.GetU(a, b) == old(grid.GetU(a, b)) && grid.GetWeightsU(a, b) == old(grid.GetWeightsU(a, b))
      ensures forall a, b | grid.InV(a, b) && !Near(a, b, cx, cy, hx, hy) ::
        grid.GetV(a, b) == old(grid.GetV(a, b)) && grid.GetWeightsV(a, b) == old(grid.GetWeightsV(a, b))
      ensures forall x | 0 <= x < grid.weightsU.Length :: grid.weightsU[x] >= old(grid.weightsU[x])
      ensures forall x | 0 <= x < grid.weightsV.Length :: grid.weightsV[x] >= old(grid.weightsV[x])
      ensures ResidualKept(vel.x, old(grid.u[..]), old(grid.weightsU[..]), grid.u[..], grid.weightsU[..])
      ensures ResidualKept(vel.y, old(grid.v[..]), old(grid.weightsV[..]), grid.v[..], grid.weightsV[..])
    {
      var gc := Vec3(0.0, 0.0, 0.0);
      var j := cy - hy;
      while j < cy + hy + 1
        invariant cy - hy <= j <= cy + hy + 1
        invariant forall a, b | grid.InU(a, b) && !(cx - hx <= a <= cx + hx && cy - hy <= b < j) ::
          grid.GetU(a, b) == old(grid.GetU(a, b)) && grid.GetWeightsU(a, b) == old(grid.GetWeightsU(a, b))
        invariant forall a, b | grid.InV(a, b) && !(cx - hx <= a <= cx + hx && cy - hy <= b < j) ::
          grid.GetV(a, b) == old(grid.GetV(a, b)) && grid.GetWeightsV(a, b) == old(grid.GetWeightsV(a, b))
        invariant forall x | 0 <= x < grid.weightsU.Length :: grid.weightsU[x] >= old(grid.weightsU[x])
        invariant forall x | 0 <= x < grid.weightsV.Length :: grid.weightsV[x] >= old(grid.weightsV[x])
        invariant ResidualKept(vel.x, old(grid.u[..]), old(grid.weightsU[..]), grid.u[..], grid.weightsU[..])
        invariant ResidualKept(vel.y, old(grid.v[..]), old(grid.weightsV[..]), grid.v[..], grid.weightsV[..])
      {
        ghost var u1, wu1, v1, wv1 := grid.u[..], grid.weightsU[..], grid.v[..], grid.weightsV[..];
        gc := AccumulateRow(pos, vel, h, cx, hx, j, gc);
        ResidualKeptTrans(vel.x, old(grid.u[..]), old(grid.weightsU[..]), u1, wu1, grid.u[..], grid.weightsU[..]);
        ResidualKeptTrans(vel.y, old(grid.v[..]), old(grid.weightsV[..]), v1, wv1, grid.v[..], grid.weightsV[..]);
        j := j + 1;
      }
    }

    /** compute_velocity_field after the two zeroing calls (source lines 117-172):
        h is the cell width, so both scaled radii truncate to 1; the fluid flags
        are cleared, the particles splatted into uAcc/vAcc and the weights, and
        both fields normalised. Afterwards a cell is fluid exactly when it holds
        a particle and is not solid; every face is its accumulated value divided
        by its weight when that is nonzero; a face outside every particle's 3x3
        block keeps its weight and accumulated value; no weight shrinks; and when
        all particles share one velocity c the accumulation keeps value - c*weight
        (see UniformTransfer for what that gives). */
    method TransferToGrid() returns (ghost uAcc: seq<real>, ghost vAcc: seq<real>)
      requires Valid() && ParticlesIndexable()
      modifies grid.fluid, grid.u, grid.weightsU, grid.v, grid.weightsV
      ensures forall x | 0 <= x < grid.fluid.Length ::
        grid.fluid[x] <==> !grid.solid[x] && Occupied(x, particles.Length)
      ensures |uAcc| == grid.u.Length && |vAcc| == grid.v.Length
      ensures forall x | 0 <= x < grid.u.Length ::
        grid.u[x] == if grid.weightsU[x] != 0.0 then uAcc[x] / grid.weightsU[x] else uAcc[x]
      ensures forall x | 0 <= x < grid.v.Length ::
        grid.v[x] == if grid.weightsV[x] != 0.0 then vAcc[x] / grid.weightsV[x] else vAcc[x]
      ensures forall a, b | grid.InU(a, b) && FarFromAll(a, b, particles.Length, 1, 1) ::
        grid.GetWeightsU(a, b) == old(grid.GetWeightsU(a, b)) && uAcc[Flat2(grid.N + 1, a, b)] == old(grid.GetU(a, b))
      ensures forall a, b | grid.InV(a, b) && FarFromAll(a, b, particles.Length, 1, 1) ::
        grid.GetWeightsV(a, b) == old(grid.GetWeightsV(a, b)) && vAcc[Flat2(grid.N, a, b)] == old(grid.GetV(a, b))
      ensures forall x | 0 <= x < grid.weightsU.Length :: grid.weightsU[x] >= old(grid.weightsU[x])
      ensures forall x | 0 <= x < grid.weightsV.Length :: grid.weightsV[x] >= old(grid.weightsV[x])
      ensures Uniform() && 0 < particles.Length ==>
        ResidualKept(particles[0].vel.x, old(grid.u[..]), old(grid.weightsU[..]), uAcc, grid.weightsU[..])
      ensures Uniform() && 0 < particles.Length ==>
        ResidualKept(particles[0].vel.y, old(grid.v[..]), old(grid.weightsV[..]), vAcc, grid.weightsV[..])
    {
      CellSizesPositive();
      var h := grid.cellSizeX;
      var hx := Trunc(h / grid.cellSizeX);
      var hy := Trunc(h / grid.cellSizeY);
      assert h / grid.cellSizeX == 1.0;
      grid.ResetFluid();
      SplatParticles(h, hx, hy);
      uAcc, vAcc := grid.u[..], grid.v[..];
      NormalizeU();
      NormalizeV();
    }

    /** The assertion of index_from_coord: the point lies outside the grid. */
    predicate Outside(p: Vec3)
    {
      p.x > grid.sizeX || p.y > grid.sizeY || p.x < 0.0 || p.y < 0.0
    }

    /** What compute_velocity_field's particle loop demands of every particle: its
        position passes index_from_coord's assertion and the truncated cell passes
        is_fluid's and is_solid's. */
    predicate ParticlesIndexable()
      reads particles
    {
      forall n | 0 <= n < particles.Length ::
        Outside(particles[n].pos) && grid.CellReadable(Trunc(particles[n].pos.x), Trunc(particles[n].pos.y))
    }

    /** The flat index of the cell index_from_coord assigns to particle p. */
    function CellOf(p: Particle): int
    {
      Flat2(grid.N, Trunc(p.pos.x), Trunc(p.pos.y))
    }

    /** Cell x holds one of the first n particles. */
    predicate Occupied(x: int, n: int)
      reads particles
      requires n <= particles.Length
    {
      exists k | 0 <= k < n :: CellOf(particles[k]) == x
    }

    /** Occupied grows by exactly the cell of particle n. */
    lemma OccupiedStep(n: int)
      requires 0 <= n < particles.Length
      ensures forall x :: Occupied(x, n + 1) <==> Occupied(x, n) || x == CellOf(particles[n])
    {
      forall x | Occupied(x, n + 1)
        ensures Occupied(x, n) || x == CellOf(particles[n])
      {
        var k :| 0 <= k < n + 1 && CellOf(particles[k]) == x;
        if k < n {
          assert Occupied(x, n);
        }
      }
    }

    /** Face or cell (a,b) lies outside the hx/hy blocks of the first n particles. */
    predicate FarFromAll(a: int, b: int, n: int, hx: int, hy: int)
      reads particles
      requires n <= particles.Length
    {
      forall k | 0 <= k < n :: !Near(a, b, Trunc(particles[k].pos.x), Trunc(particles[k].pos.y), hx, hy)
    }

    /** Every particle moves with the velocity of the first. */
    predicate Uniform()
      reads particles
    {
      forall n | 0 <= n < particles.Length :: particles[n].vel == particles[0].vel
    }

    /** The particle loop of compute_velocity_field (source lines 131-168). A cell
        becomes fluid exactly when it holds a particle and is not solid (or was
        fluid already); faces outside every particle's block keep value and
        weight; weights only grow; and when all particles share one velocity c,
        u - c.x*w and v - c.y*w are kept on every face. */
    method SplatParticles(h: real, hx: int, hy: int)
      requires Valid() && ParticlesIndexable() && 0 <= hx && 0 <= hy
      modifies grid.fluid, grid.u, grid.weightsU, grid.v, grid.weightsV
      ensures forall x | 0 <= x < grid.fluid.Length ::
        grid.fluid[x] <==> old(grid.fluid[x]) || (!grid.solid[x] && Occupied(x, particles.Length))
      ensures forall a, b | grid.InU(a, b) && FarFromAll(a, b, particles.Length, hx, hy) ::
        grid.GetU(a, b) == old(grid.GetU(a, b)) && grid.GetWeightsU(a, b) == old(grid.GetWeightsU(a, b))
      ensures forall a, b | grid.InV(a, b) && FarFromAll(a, b, particles.Length, hx, hy) ::
        grid.GetV(a, b) == old(grid.GetV(a, b)) && grid.GetWeightsV(a, b) == old(grid.GetWeightsV(a, b))
      ensures forall x | 0 <= x < grid.weightsU.Length :: grid.weightsU[x] >= old(grid.weightsU[x])
      ensures forall x | 0 <= x < grid.weightsV.Length :: grid.weightsV[x] >= old(grid.weightsV[x])
      ensures Uniform() && 0 < particles.Length ==>
        ResidualKept(particles[0].vel.x, old(grid.u[..]), old(grid.weightsU[..]), grid.u[..], grid.weightsU[..])
      ensures Uniform() && 0 < particles.Length ==>
        ResidualKept(particles[0].vel.y, old(grid.v[..]), old(grid.weightsV[..]), grid.v[..], grid.weightsV[..])
    {
      ghost var c := if 0 < particles.Length then particles[0].vel else Vec3(0.0, 0.0, 0.0);
      var n := 0;
      while n < particles.Length
        invariant 0 <= n <= particles.Length
        invariant forall x | 0 <= x < grid.fluid.Length ::
          grid.fluid[x] <==> old(grid.fluid[x]) || (!grid.solid[x] && Occupied(x, n))
        invariant forall a, b | grid.InU(a, b) && FarFromAll(a, b, n, hx, hy) ::
          grid.GetU(a, b) == old(grid.GetU(a, b)) && grid.GetWeightsU(a, b) == old(grid.GetWeightsU(a, b))
        invariant forall a, b | grid.InV(a, b) && FarFromAll(a, b, n, hx, hy) ::
          grid.GetV(a, b) == old(grid.GetV(a, b)) && grid.GetWeightsV(a, b) == old(grid.GetWeightsV(a, b))
        invariant forall x | 0 <= x < grid.weightsU.Length :: grid.weightsU[x] >= old(grid.weightsU[x])
        invariant forall x | 0 <= x < grid.weightsV.Length :: grid.weightsV[x] >= old(grid.weightsV[x])
        invariant Uniform() ==> ResidualKept(c.x, old(grid.u[..]), old(grid.weightsU[..]), grid.u[..], grid.weightsU[..])
        invariant Uniform() ==> ResidualKept(c.y, old(grid.v[..]), old(grid.weightsV[..]), grid.v[..], grid.weightsV[..])
      {
        ghost var u1, wu1, v1, wv1 := grid.u[..], grid.weightsU[..], grid.v[..], grid.weightsV[..];
        SplatParticle(h, hx, hy, n, c);
        if Uniform() {
          ResidualKeptTrans(c.x, old(grid.u[..]), old(grid.weightsU[..]), u1, wu1, grid.u[..], grid.weightsU[..]);
          ResidualKeptTrans(c.y, old(grid.v[..]), old(grid.weightsV[..]), v1, wv1, grid.v[..], grid.weightsV[..]);
        }
        OccupiedStep(n);
        n := n + 1;
      }
    }

    /** One iteration of the particle loop: particle n marks its cell and
        accumulates into its block. */
    method SplatParticle(h: real, hx: int, hy: int, n: int, ghost c: Vec3)
      requires Valid() && ParticlesIndexable() && 0 <= hx && 0 <= hy && 0 <= n < particles.Length
      modifies grid.fluid, grid.u, grid.weightsU, grid.v, grid.weightsV
      ensures forall x | 0 <= x < grid.fluid.Length ::
        grid.fluid[x] <==> old(grid.fluid[x]) || (!grid.solid[x] && x == CellOf(particles[n]))
      ensures forall a, b | grid.InU(a, b) && !Near(a, b, Trunc(particles[n].pos.x), Trunc(particles[n].pos.y), hx, hy) ::
        grid.GetU(a, b) == old(grid.GetU(a, b)) && grid.GetWeightsU(a, b) == old(grid.GetWeightsU(a, b))
      ensures forall a, b | grid.InV(a, b) && !Near(a, b, Trunc(particles[n].pos.x), Trunc(particles[n].pos.y), hx, hy) ::
        grid.GetV(a, b) == old(grid.GetV(a, b)) && grid.GetWeightsV(a, b) == old(grid.GetWeightsV(a, b))
      ensures forall x | 0 <= x < grid.weightsU.Length :: grid.weightsU[x] >= old(grid.weightsU[x])
      ensures forall x | 0 <= x < grid.weightsV.Length :: grid.weightsV[x] >= old(grid.weightsV[x])
      ensures particles[n].vel == c ==>
        ResidualKept(c.x, old(grid.u[..]), old(grid.weightsU[..]), grid.u[..], grid.weightsU[..])
      ensures particles[n].vel == c ==>
        ResidualKept(c.y, old(grid.v[..]), old(grid.weightsV[..]), grid.v[..], grid.weightsV[..])
    {
      MarkFluid(n);
      var p := particles[n];
      AccumulateParticle(p.pos, p.vel, h, Trunc(p.pos.x), Trunc(p.pos.y), hx, hy);
    }

    /** Lines 132-141 for particle n: its cell is set fluid unless it is fluid or solid. */
    method MarkFluid(n: int)
      requires Valid() && ParticlesIndexable() && 0 <= n < particles.Length
      modifies grid.fluid
      ensures forall x | 0 <= x < grid.fluid.Length ::
        grid.fluid[x] <==> old(grid.fluid[x]) || (!grid.solid[x] && x == CellOf(particles[n]))
    {
      var p := particles[n];
      var cell := grid.IndexFromCoord(p.pos.x, p.pos.y);
      if !grid.IsFluid(cell.0, cell.1) && !grid.IsSolid(cell.0, cell.1) {
        grid.SetFluid(cell.0, cell.1);
      }
    }

    /** normalize_accumulated_u: its loops visit every u slot, j < M and i <= N,
        and each slot with nonzero weight is divided by it; the other slots and
        the weights are not touched. */
    method NormalizeU()
      requires Valid()
      modifies grid.u
      ensures forall x | 0 <= x < grid.u.Length ::
        grid.u[x] == if grid.weightsU[x] != 0.0 then old(grid.u[x]) / grid.weightsU[x] else old(grid.u[x])
    {
      var j := 0;
      while j < grid.M
        invariant 0 <= j <= grid.M
        invariant forall x | 0 <= x < grid.u.Length ::
          grid.u[x] == if x < Flat2(grid.N + 1, 0, j) && grid.weightsU[x] != 0.0 then old(grid.u[x]) / grid.weightsU[x]
                       else old(grid.u[x])
      {
        NormalizeURow(j);
        assert Flat2(grid.N + 1, 0, j) + grid.N + 1 == Flat2(grid.N + 1, 0, j + 1);
        j := j + 1;
      }
    }

    /** One pass of normalize_accumulated_u's i-loop: row j of u, the slots
        (N+1)*j .. (N+1)*j + N. */
    method NormalizeURow(j: int)
      requires Valid() && 0 <= j < grid.M
      modifies grid.u
      ensures forall x | 0 <= x < grid.u.Length ::
        grid.u[x] == if Flat2(grid.N + 1, 0, j) <= x < Flat2(grid.N + 1, 0, j) + grid.N + 1 && grid.weightsU[x] != 0.0
                     then old(grid.u[x]) / grid.weightsU[x] else old(grid.u[x])
    {
      var base := Flat2(grid.N + 1, 0, j);
      var i := 0;
      while i < grid.N + 1
        invariant 0 <= i <= grid.N + 1
        invariant forall x | 0 <= x < grid.u.Length ::
          grid.u[x] == if base <= x < base + i && grid.weightsU[x] != 0.0 then old(grid.u[x]) / grid.weightsU[x]
                       else old(grid.u[x])
      {
        MulLe(grid.N + 1, 0, j);
        var w := grid.GetWeightsU(i, j);
        if w != 0.0 {
          grid.SetU(i, j, grid.GetU(i, j) / w);
        }
        i := i + 1;
      }
    }

    /** normalize_accumulated_v: the same over every v slot, j <= M and i < N. */
    method NormalizeV()
      requires Valid()
      modifies grid.v
      ensures forall x | 0 <= x < grid.v.Length ::
        grid.v[x] == if grid.weightsV[x] != 0.0 then old(grid.v[x]) / grid.weightsV[x] else old(grid.v[x])
    {
      var j := 0;
      while j < grid.M + 1
        invariant 0 <= j <= grid.M + 1
        invariant forall x | 0 <= x < grid.v.Length ::
          grid.v[x] == if x < Flat2(grid.N, 0, j) && grid.weightsV[x] != 0.0 then old(grid.v[x]) / grid.weightsV[x]
                       else old(grid.v[x])
      {
        NormalizeVRow(j);
        assert Flat2(grid.N, 0, j) + grid.N == Flat2(grid.N, 0, j + 1);
        j := j + 1;
      }
      assert Flat2(grid.N, 0, grid.M + 1) == grid.v.Length;
    }

    /** One pass of normalize_accumulated_v's i-loop: row j of v, the slots
        N*j .. N*j + N-1. */
    method NormalizeVRow(j: int)
      requires Valid() && 0 <= j < grid.M + 1
      modifies grid.v
      ensures forall x | 0 <= x < grid.v.Length ::
        grid.v[x] == if Flat2(grid.N, 0, j) <= x < Flat2(grid.N, 0, j) + grid.N && grid.weightsV[x] != 0.0
                     then old(grid.v[x]) / grid.weightsV[x] else old(grid.v[x])
    {
      var base := Flat2(grid.N, 0, j);
      var i := 0;
      while i < grid.N
        invariant 0 <= i <= grid.N
        invariant forall x | 0 <= x < grid.v.Length ::
          grid.v[x] == if base <= x < base + i && grid.weightsV[x] != 0.0 then old(grid.v[x]) / grid.weightsV[x]
                       else old(grid.v[x])
      {
        MulLe(grid.N, 0, j);
        var w := grid.GetWeightsV(i, j);
        if w != 0.0 {
          grid.SetV(i, j, grid.GetV(i, j) / w);
        }
        i := i + 1;
      }
    }

    // -------------------------------------------------------------------------
    // apply_boundary_conditions

    /** u face (a,b) lies on a solid wall: the cell on its left (a-1,b) is solid,
        or the cell on its right (a,b) exists and is solid. */
    predicate WallU(a: int, b: int)
      reads grid.solid
      requires Valid() && grid.InU(a, b)
    {
      1 <= a && (grid.IsSolid(a - 1, b) || (a < grid.N && grid.IsSolid(a, b)))
    }

    /** v face (a,b) lies on a solid wall: the cell below or the cell above is solid. */
    predicate WallV(a: int, b: int)
      reads grid.solid
      requires Valid() && grid.InV(a, b)
    {
      1 <= b && (grid.IsSolid(a, b - 1) || (b < grid.M && grid.IsSolid(a, b)))
    }

    /** What the wall loop's assertions demand: it tests is_solid(i+1,j) and
        is_solid(i,j+1) unless cell (i,j) is solid, and those tests leave the grid
        at i = N-1 and j = M-1, so the last column and the last row must be solid. */
    predicate LastColumnAndRowSolid()
      reads grid.solid
      requires Valid()
    {
      forall a, b | 0 <= a < grid.N && 0 <= b < grid.M && (a == grid.N - 1 || b == grid.M - 1) :: grid.IsSolid(a, b)
    }

    /** The v row the outer pass clears as the "top" one: j = N*(M-1), the
        source's index, which is a row of v only when N*(M-1) <= M. */
    function TopRow(): int { grid.N * (grid.M - 1) }

    /** The u faces apply_boundary_conditions sets to 0: columns 0 and N-1 and the walls. */
    predicate ZeroedU(a: int, b: int)
      reads grid.solid
      requires Valid() && grid.InU(a, b)
    {
      a == 0 || a == grid.N - 1 || WallU(a, b)
    }

    /** The v faces it sets to 0: rows 0 and N*(M-1) and the walls. */
    predicate ZeroedV(a: int, b: int)
      reads grid.solid
      requires Valid() && grid.InV(a, b)
    {
      b == 0 || b == TopRow() || WallV(a, b)
    }

    /** apply_boundary_conditions: the zeroed faces become 0 and every other face
        keeps its value. The requires are the assertions it must pass: the last
        column and row solid, and v(i, N*(M-1)) inside the v field. */
    method ApplyBoundaryConditions()
      requires Valid() && LastColumnAndRowSolid() && TopRow() <= grid.M
      modifies grid.u, grid.v
      ensures forall a, b | grid.InU(a, b) :: grid.GetU(a, b) == if ZeroedU(a, b) then 0.0 else old(grid.GetU(a, b))
      ensures forall a, b | grid.InV(a, b) :: grid.GetV(a, b) == if ZeroedV(a, b) then 0.0 else old(grid.GetV(a, b))
    {
      SolidWalls();
      OuterBoundaries();
    }

    /** The solid-wall loops over j < M, i < N. */
    method SolidWalls()
      requires Valid() && LastColumnAndRowSolid()
      modifies grid.u, grid.v
      ensures forall a, b | grid.InU(a, b) :: grid.GetU(a, b) == if WallU(a, b) then 0.0 else old(grid.GetU(a, b))
      ensures forall a, b | grid.InV(a, b) :: grid.GetV(a, b) == if WallV(a, b) then 0.0 else old(grid.GetV(a, b))
    {
      var j := 0;
      while j < grid.M
        invariant 0 <= j <= grid.M
        invariant forall a, b | grid.InU(a, b) ::
          grid.GetU(a, b) == if b < j && WallU(a, b) then 0.0 else old(grid.GetU(a, b))
        invariant forall a, b | grid.InV(a, b) ::
          grid.GetV(a, b) == if b <= j && WallV(a, b) then 0.0 else old(grid.GetV(a, b))
      {
        SolidWallsRow(j);
        j := j + 1;
      }
    }

    /** Row j of the wall loops: u(i+1,j) and v(i,j+1) for every i < N. */
    method SolidWallsRow(j: int)
      requires Valid() && LastColumnAndRowSolid() && 0 <= j < grid.M
      modifies grid.u, grid.v
      ensures forall a, b | grid.InU(a, b) ::
        grid.GetU(a, b) == if b == j && WallU(a, b) then 0.0 else old(grid.GetU(a, b))
      ensures forall a, b | grid.InV(a, b) ::
        grid.GetV(a, b) == if b == j + 1 && WallV(a, b) then 0.0 else old(grid.GetV(a, b))
    {
      var i := 0;
      while i < grid.N
        invariant 0 <= i <= grid.N
        invariant forall a, b | grid.InU(a, b) ::
          grid.GetU(a, b) == if b == j && a <= i && WallU(a, b) then 0.0 else old(grid.GetU(a, b))
        invariant forall a, b | grid.InV(a, b) ::
          grid.GetV(a, b) == if b == j + 1 && a < i && WallV(a, b) then 0.0 else old(grid.GetV(a, b))
      {
        var ijSolid := grid.IsSolid(i, j);
        WallFaceU(i, j, ijSolid);
        WallFaceV(i, j, ijSolid);
        i := i + 1;
      }
    }

    /** The u half of one iteration: u(i+1,j) := 0 when cell (i,j) or cell (i+1,j) is solid. */
    method WallFaceU(i: int, j: int, ijSolid: bool)
      requires Valid() && LastColumnAndRowSolid() && grid.InCell(i, j) && ijSolid == grid.IsSolid(i, j)
      modifies grid.u
      ensures forall a, b | grid.InU(a, b) ::
        grid.GetU(a, b) == if a == i + 1 && b == j && WallU(a, b) then 0.0 else old(grid.GetU(a, b))
    {
      if ijSolid || grid.IsSolid(i + 1, j) {
        grid.SetU(i + 1, j, 0.0);
      }
    }

    /** The v half of one iteration: v(i,j+1) := 0 when cell (i,j) or cell (i,j+1) is solid. */
    method WallFaceV(i: int, j: int, ijSolid: bool)
      requires Valid() && LastColumnAndRowSolid() && grid.InCell(i, j) && ijSolid == grid.IsSolid(i, j)
      modifies grid.v
      ensures forall a, b | grid.InV(a, b) ::
        grid.GetV(a, b) == if a == i && b == j + 1 && WallV(a, b) then 0.0 else old(grid.GetV(a, b))
    {
      if ijSolid || grid.IsSolid(i, j + 1) {
        grid.SetV(i, j + 1, 0.0);
      }
    }

    /** The outer (system) boundary loops: v rows 0 and N*(M-1), then u columns 0 and N-1. */
    method OuterBoundaries()
      requires Valid() && TopRow() <= grid.M
      modifies grid.u, grid.v
      ensures forall a, b | grid.InU(a, b) ::
        grid.GetU(a, b) == if a == 0 || a == grid.N - 1 then 0.0 else old(grid.GetU(a, b))
      ensures forall a, b | grid.InV(a, b) ::
        grid.GetV(a, b) == if b == 0 || b == TopRow() then 0.0 else old(grid.GetV(a, b))
    {
      OuterRowsV();
      OuterColumnsU();
    }

    /** The loop over i < N clearing v(i,0) and v(i,N*(M-1)). */
    method OuterRowsV()
      requires Valid() && TopRow() <= grid.M
      modifies grid.v
      ensures forall a, b | grid.InV(a, b) ::
        grid.GetV(a, b) == if b == 0 || b == TopRow() then 0.0 else old(grid.GetV(a, b))
    {
      MulLe(grid.N, 0, grid.M - 1);
      var i := 0;
      while i < grid.N
        invariant 0 <= i <= grid.N
        invariant forall a, b | grid.InV(a, b) ::
          grid.GetV(a, b) == if (b == 0 || b == TopRow()) && a < i then 0.0 else old(grid.GetV(a, b))
      {
        grid.SetV(i, 0, 0.0);
        grid.SetV(i, TopRow(), 0.0);
        i := i + 1;
      }
    }

    /** The loop over j < M clearing u(0,j) and u(N-1,j). */
    method OuterColumnsU()
      requires Valid()
      modifies grid.u
      ensures forall a, b | grid.InU(a, b) ::
        grid.GetU(a, b) == if a == 0 || a == grid.N - 1 then 0.0 else old(grid.GetU(a, b))
    {
      var j := 0;
      while j < grid.M
        invariant 0 <= j <= grid.M
        invariant forall a, b | grid.InU(a, b) ::
          grid.GetU(a, b) == if (a == 0 || a == grid.N - 1) && b < j then 0.0 else old(grid.GetU(a, b))
      {
        grid.SetU(0, j, 0.0);
        grid.SetU(grid.N - 1, j, 0.0);
        j := j + 1;
      }
    }

    // -------------------------------------------------------------------------
    // compute_pressure_matrix

    /** The triplet list becomes MatrixTriplets of the fluid flags and A_diag_:
        in loop order, each fluid cell's diagonal entry followed by the -1 pair
        of its fluid right neighbour. So the list is well formed and mirror
        closed, holds one diagonal entry per fluid cell and none elsewhere,
        and links two cells by -1 exactly when they are horizontal fluid
        neighbours. Every fluid cell must have an A_diag_ entry. */
    method ComputePressureMatrix()
      requires Valid() && DiagCovers(grid.fluid[..], grid.aDiag)
      modifies this`A
      ensures MatrixInputs(grid.fluid[..], grid.aDiag, grid.N, grid.M)
      ensures A == MatrixTriplets(grid.fluid[..], grid.aDiag, grid.N, grid.M)
      ensures AllWellFormed(grid.fluid[..], grid.N, grid.M, A) && MirrorClosed(A)
      ensures forall k | 0 <= k < grid.N * grid.M :: DiagCountAt(A, k) == if grid.fluid[k] then 1 else 0
      ensures forall r, c | r != c :: Triplet(r, c, -1.0) in A
                <==> XNeighbours(grid.fluid[..], grid.N, grid.M, r, c) || XNeighbours(grid.fluid[..], grid.N, grid.M, c, r)
    {
      var ny := grid.M;
      var triplets: seq<Triplet> := [];
      var j := 0;
      while j < ny
        invariant 0 <= j <= ny
        invariant triplets == Rows(grid.fluid[..], grid.aDiag, grid.N, ny, j)
      {
        var row := PressureMatrixRow(j);
        triplets := triplets + row;
        j := j + 1;
      }
      A := triplets;
      MatrixTripletsExact(grid.fluid[..], grid.aDiag, grid.N, grid.M);
    }

    /** The triplets the inner loop pushes for row j, cellidx running from N*j. */
    method PressureMatrixRow(j: int) returns (row: seq<Triplet>)
      requires Valid() && DiagCovers(grid.fluid[..], grid.aDiag) && 0 <= j < grid.M
      ensures MatrixInputs(grid.fluid[..], grid.aDiag, grid.N, grid.M)
      ensures row == RowPrefix(grid.fluid[..], grid.aDiag, grid.N, grid.M, grid.N, j)
    {
      var nx := grid.N;
      var cellidx := Flat2(nx, 0, j);
      row := [];
      var i := 0;
      while i < nx
        invariant 0 <= i <= nx
        invariant cellidx == Flat2(nx, i, j)
        invariant row == RowPrefix(grid.fluid[..], grid.aDiag, nx, grid.M, i, j)
      {
        var pushed := CellPushes(i, j, cellidx);
        row := row + pushed;
        i := i + 1;
        cellidx := cellidx + 1;
      }
    }

    /** The pushes of one inner iteration, for cell (i,j) at cellidx. */
    method CellPushes(i: int, j: int, cellidx: int) returns (pushed: seq<Triplet>)
      requires Valid() && DiagCovers(grid.fluid[..], grid.aDiag) && grid.InCell(i, j)
      requires cellidx == Flat2(grid.N, i, j)
      ensures MatrixInputs(grid.fluid[..], grid.aDiag, grid.N, grid.M)
      ensures pushed == CellTriplets(grid.fluid[..], grid.aDiag, grid.N, grid.M, i, j)
    {
      var nx := grid.N;
      var ny := grid.M;
      ghost var fl := grid.fluid[..];
      assert i + j * nx == cellidx;
      pushed := [];
      if grid.IsFluid(i, j) {
        var diagE := grid.aDiag[i + j * nx];
        pushed := [diagE];
        if i + 1 < nx && grid.IsFluid(i + 1, j) {
          pushed := pushed + [Triplet(cellidx, cellidx + 1, -1.0), Triplet(cellidx + 1, cellidx, -1.0)];
          Flat2Bounds(nx, ny, i + 1, j);
          assert pushed[1..] == XPair(fl, nx, ny, i, j);
        } else {
          if i + 1 < nx {
            Flat2Bounds(nx, ny, i + 1, j);
          }
          assert pushed[1..] == XPair(fl, nx, ny, i, j);
        }
        if j + ny < ny {
          assert false;
        }
      }
    }

    // -------------------------------------------------------------------------
    // compute_pressure_rhs

    /** No fluid cell lies in row 0: there get_v(i,-1) would read before the v
        buffer, and so would get_u(-1,0). */
    predicate RhsReadable()
      reads grid.fluid
      requires Valid()
    {
      forall a | 0 <= a < grid.N :: !grid.IsFluid(a, 0)
    }

    /** d_(i + N*j): 0 for a cell that is not fluid, else density * cell_sizex *
        RhsDivergence(...) / dt with the four wall tests of the source. At i = 0,
        u(i-1,j) is the slot before u(0,j), which is u(N,j-1). */
    function CellRhs(i: int, j: int, dt: real): real
      reads grid.u, grid.v, grid.solid, grid.fluid
      requires Valid() && grid.InCell(i, j) && dt != 0.0 && (grid.IsFluid(i, j) ==> 0 < j)
    {
      if !grid.IsFluid(i, j) then 0.0
      else
        MulLe(grid.N + 1, 1, j);
        MulLe(grid.N, 1, j);
        var wallL := (i > 0 && grid.IsSolid(i - 1, j)) || i == 0;
        var wallR := (i < grid.N - 1 && grid.IsSolid(i + 1, j)) || i == grid.N - 1;
        var wallB := (j > 0 && grid.IsSolid(i, j - 1)) || j == 0;
        var wallT := (j < grid.M - 1 && grid.IsSolid(i, j + 1)) || j == grid.M - 1;
        fluidDensity * grid.cellSizeX
          * RhsDivergence(grid.GetU(i, j), grid.GetU(i + 1, j), grid.GetV(i, j), grid.GetV(i, j + 1),
                          grid.GetU(i - 1, j), grid.GetV(i, j - 1), wallL, wallR, wallB, wallT) / dt
    }

    /** d_ gets N*M entries, entry i + N*j being CellRhs(i, j, dt). */
    method ComputePressureRhs(dt: real)
      requires Valid() && dt != 0.0 && RhsReadable()
      modifies this`d
      ensures |d| == grid.N * grid.M
      ensures forall a, b | grid.InCell(a, b) :: d[Flat2(grid.N, a, b)] == CellRhs(a, b, dt)
    {
      var nx := grid.N;
      var ny := grid.M;
      MulLe(nx, 0, ny);
      var rhs := new real[nx * ny];
      var j := 0;
      while j < ny
        invariant 0 <= j <= ny
        invariant forall a, b | grid.InCell(a, b) && b < j :: rhs[Flat2(nx, a, b)] == CellRhs(a, b, dt)
      {
        RhsRow(rhs, j, dt);
        j := j + 1;
      }
      d := rhs[..];
    }

    /** The inner loop of compute_pressure_rhs for row j, cellidx running from N*j. */
    method RhsRow(rhs: array<real>, j: int, dt: real)
      requires Valid() && dt != 0.0 && RhsReadable() && 0 <= j < grid.M
      requires rhs.Length == grid.N * grid.M && rhs != grid.u && rhs != grid.v
      modifies rhs
      ensures forall a, b | grid.InCell(a, b) ::
        rhs[Flat2(grid.N, a, b)] == if b == j then CellRhs(a, b, dt) else old(rhs[Flat2(grid.N, a, b)])
    {
      var nx := grid.N;
      var cellidx := Flat2(nx, 0, j);
      var i := 0;
      while i < nx
        invariant 0 <= i <= nx
        invariant cellidx == Flat2(nx, i, j)
        invariant forall a, b | grid.InCell(a, b) ::
          rhs[Flat2(nx, a, b)] == if b == j && a < i then CellRhs(a, b, dt) else old(rhs[Flat2(nx, a, b)])
      {
        assert grid.InCell(i, j);
        var value := CellRhs(i, j, dt);
        rhs[cellidx] := value;
        forall a, b | grid.InCell(a, b) && Flat2(nx, a, b) == cellidx
          ensures a == i && b == j
        {
          Flat2Injective(nx, a, b, i, j);
        }
        i := i + 1;
        cellidx := cellidx + 1;
      }
    }

    // -------------------------------------------------------------------------
    // apply_pressure_gradients

    /** The factor dt/(dx*density) of the gradient update. */
    function GradientFactor(dt: real): real
      reads grid
      requires Valid() && fluidDensity != 0.0
    {
      CellSizesPositive();
      dt / (grid.cellSizeX * fluidDensity)
    }

    /** What apply_pressure_gradients makes of u face (a,b) holding vel: for
        1 <= a < N and b < M the PressureStep across cells (a-1,b) and (a,b);
        column 0, column N and the faces past row M-1 keep vel. */
    function UAfterGradient(a: int, b: int, dt: real, vel: real): real
      reads grid, grid.pressure
      requires Valid() && fluidDensity != 0.0 && grid.InU(a, b)
    {
      if 1 <= a < grid.N && b < grid.M
      then PressureStep(vel, grid.GetPressure(a, b), grid.GetPressure(a - 1, b), GradientFactor(dt))
      else vel
    }

    /** The same for v face (a,b): for a < N and 1 <= b < M the PressureStep
        across cells (a,b-1) and (a,b); row 0 and row M keep vel. */
    function VAfterGradient(a: int, b: int, dt: real, vel: real): real
      reads grid, grid.pressure
      requires Valid() && fluidDensity != 0.0 && grid.InV(a, b)
    {
      if 1 <= b < grid.M
      then (MulLe(grid.N, 1, b);
            PressureStep(vel, grid.GetPressure(a, b), grid.GetPressure(a, b - 1), GradientFactor(dt)))
      else vel
    }

    /** Every u and v face becomes UAfterGradient / VAfterGradient of its value. */
    method ApplyPressureGradients(dt: real)
      requires Valid() && fluidDensity != 0.0
      modifies grid.u, grid.v
      ensures forall a, b | grid.InU(a, b) :: grid.GetU(a, b) == UAfterGradient(a, b, dt, old(grid.GetU(a, b)))
      ensures forall a, b | grid.InV(a, b) :: grid.GetV(a, b) == VAfterGradient(a, b, dt, old(grid.GetV(a, b)))
    {
      var j := 0;
      while j < grid.M
        invariant 0 <= j <= grid.M
        invariant forall a, b | grid.InU(a, b) ::
          grid.GetU(a, b) == if b < j then UAfterGradient(a, b, dt, old(grid.GetU(a, b))) else old(grid.GetU(a, b))
        invariant forall a, b | grid.InV(a, b) ::
          grid.GetV(a, b) == if b < j || b == grid.M then VAfterGradient(a, b, dt, old(grid.GetV(a, b))) else old(grid.GetV(a, b))
      {
        GradientRow(j, dt);
        j := j + 1;
      }
    }

    /** Row j of apply_pressure_gradients: the u faces and the v faces of row j. */
    method GradientRow(j: int, dt: real)
      requires Valid() && fluidDensity != 0.0 && 0 <= j < grid.M
      modifies grid.u, grid.v
      ensures forall a, b | grid.InU(a, b) ::
        grid.GetU(a, b) == if b == j then UAfterGradient(a, b, dt, old(grid.GetU(a, b))) else old(grid.GetU(a, b))
      ensures forall a, b | grid.InV(a, b) ::
        grid.GetV(a, b) == if b == j then VAfterGradient(a, b, dt, old(grid.GetV(a, b))) else old(grid.GetV(a, b))
    {
      var i := 0;
      while i < grid.N
        invariant 0 <= i <= grid.N
        invariant forall a, b | grid.InU(a, b) ::
          grid.GetU(a, b) == if b == j && (a < i || a == grid.N) then UAfterGradient(a, b, dt, old(grid.GetU(a, b))) else old(grid.GetU(a, b))
        invariant forall a, b | grid.InV(a, b) ::
          grid.GetV(a, b) == if b == j && a < i then VAfterGradient(a, b, dt, old(grid.GetV(a, b))) else old(grid.GetV(a, b))
      {
        if i != 0 {
          GradientFaceU(i, j, dt);
        }
        if j != 0 {
          GradientFaceV(i, j, dt);
        }
        i := i + 1;
      }
    }

    /** u(i,j) -= (p(i,j) - p(i-1,j)) * dt/(dx*density); for i = 0 nothing changes. */
    method GradientFaceU(i: int, j: int, dt: real)
      requires Valid() && fluidDensity != 0.0 && grid.InCell(i, j) && 1 <= i
      modifies grid.u
      ensures forall a, b | grid.InU(a, b) ::
        grid.GetU(a, b) == if a == i && b == j then UAfterGradient(a, b, dt, old(grid.GetU(a, b))) else old(grid.GetU(a, b))
    {
      var du := grid.GetPressure(i, j) - grid.GetPressure(i - 1, j);
      du := du * GradientFactor(dt);
      grid.SetU(i, j, grid.GetU(i, j) - du);
    }

    /** v(i,j) -= (p(i,j) - p(i,j-1)) * dt/(dx*density). */
    method GradientFaceV(i: int, j: int, dt: real)
      requires Valid() && fluidDensity != 0.0 && grid.InCell(i, j) && 1 <= j
      modifies grid.v
      ensures forall a, b | grid.InV(a, b) ::
        grid.GetV(a, b) == if a == i && b == j then VAfterGradient(a, b, dt, old(grid.GetV(a, b))) else old(grid.GetV(a, b))
    {
      MulLe(grid.N, 1, j);
      var dv := grid.GetPressure(i, j) - grid.GetPressure(i, j - 1);
      dv := dv * GradientFactor(dt);
      grid.SetV(i, j, grid.GetV(i, j) - dv);
    }

    // -------------------------------------------------------------------------
    // grid_to_particle

    /** The u rectangle of particle p: its cell from index_from_coord, with
        cell_sizex as the cell size in both directions. */
    function UStencilOf(p: Particle): Stencil
    {
      UStencil(Trunc(p.pos.x), Trunc(p.pos.y), p.pos.y, grid.cellSizeX)
    }

    function VStencilOf(p: Particle): Stencil
    {
      VStencil(Trunc(p.pos.x), Trunc(p.pos.y), p.pos.x, grid.cellSizeX)
    }

    /** The four u reads pass get_u's assertion and stay inside the buffer. */
    predicate UCornersReadable(st: Stencil)
    {
      grid.UReadable(st.ix1, st.iy1) && grid.UReadable(st.ix1, st.iy2)
      && grid.UReadable(st.ix2, st.iy1) && grid.UReadable(st.ix2, st.iy2)
    }

    predicate VCornersReadable(st: Stencil)
    {
      grid.VReadable(st.ix1, st.iy1) && grid.VReadable(st.ix1, st.iy2)
      && grid.VReadable(st.ix2, st.iy1) && grid.VReadable(st.ix2, st.iy2)
    }

    /** What grid_to_particle demands of each particle: index_from_coord's
        assertion and readable corners of both rectangles. */
    predicate G2PReadable(p: Particle)
    {
      Outside(p.pos) && UCornersReadable(UStencilOf(p)) && VCornersReadable(VStencilOf(p))
    }

    lemma CellSizePositive()
      requires Valid()
      ensures 0.0 < grid.cellSizeX
    {
      CellSizesPositive();
    }

    /** The bilinear interpolation of u (star false) or u* (star true) at p. */
    function InterpU(p: Particle, star: bool): real
      reads grid.u, grid.uStar
      requires Valid() && UCornersReadable(UStencilOf(p))
    {
      var st := UStencilOf(p);
      CellSizePositive();
      if star then
        InterpAt(grid.GetUStar(st.ix1, st.iy1), grid.GetUStar(st.ix1, st.iy2),
                 grid.GetUStar(st.ix2, st.iy1), grid.GetUStar(st.ix2, st.iy2), st, grid.cellSizeX, p.pos.x, p.pos.y)
      else
        InterpAt(grid.GetU(st.ix1, st.iy1), grid.GetU(st.ix1, st.iy2),
                 grid.GetU(st.ix2, st.iy1), grid.GetU(st.ix2, st.iy2), st, grid.cellSizeX, p.pos.x, p.pos.y)
    }

    /** The bilinear interpolation of v (star false) or v* (star true) at p. */
    function InterpV(p: Particle, star: bool): real
      reads grid.v, grid.vStar
      requires Valid() && VCornersReadable(VStencilOf(p))
    {
      var st := VStencilOf(p);
      CellSizePositive();
      if star then
        InterpAt(grid.GetVStar(st.ix1, st.iy1), grid.GetVStar(st.ix1, st.iy2),
                 grid.GetVStar(st.ix2, st.iy1), grid.GetVStar(st.ix2, st.iy2), st, grid.cellSizeX, p.pos.x, p.pos.y)
      else
        InterpAt(grid.GetV(st.ix1, st.iy1), grid.GetV(st.ix1, st.iy2),
                 grid.GetV(st.ix2, st.iy1), grid.GetV(st.ix2, st.iy2), st, grid.cellSizeX, p.pos.x, p.pos.y)
    }

    /** The new velocity of p: the FLIP/PIC Blend of its old velocity with the
        interpolated new field and saved field, per component; the interpolated
        vectors have z = 0. */
    function G2PVelocity(p: Particle): Vec3
      reads grid.u, grid.uStar, grid.v, grid.vStar
      requires Valid() && G2PReadable(p)
    {
      Vec3(Blend(p.vel.x, InterpU(p, false), InterpU(p, true)),
           Blend(p.vel.y, InterpV(p, false), InterpV(p, true)),
           Blend(p.vel.z, 0.0, 0.0))
    }

    /** A particle moving with a flow that is uniform on its stencils, and was so
        before the grid update too, keeps its velocity: both interpolations
        reproduce the flow and the blend of equal values is that value. */
    lemma G2PKeepsUniformFlow(p: Particle)
      requires Valid() && G2PReadable(p)
      requires var st := UStencilOf(p);
        grid.GetU(st.ix1, st.iy1) == grid.GetU(st.ix1, st.iy2) == grid.GetU(st.ix2, st.iy1) == grid.GetU(st.ix2, st.iy2)
        == grid.GetUStar(st.ix1, st.iy1) == grid.GetUStar(st.ix1, st.iy2) == grid.GetUStar(st.ix2, st.iy1)
        == grid.GetUStar(st.ix2, st.iy2) == p.vel.x
      requires var st := VStencilOf(p);
        grid.GetV(st.ix1, st.iy1) == grid.GetV(st.ix1, st.iy2) == grid.GetV(st.ix2, st.iy1) == grid.GetV(st.ix2, st.iy2)
        == grid.GetVStar(st.ix1, st.iy1) == grid.GetVStar(st.ix1, st.iy2) == grid.GetVStar(st.ix2, st.iy1)
        == grid.GetVStar(st.ix2, st.iy2) == p.vel.y
      ensures G2PVelocity(p).x == p.vel.x && G2PVelocity(p).y == p.vel.y
      ensures G2PVelocity(p).z == p.vel.z * (1.0 - Alpha)
    {
      CellSizePositive();
      InterpAtUniform(p.vel.x, UStencilOf(p), grid.cellSizeX, p.pos.x, p.pos.y);
      InterpAtUniform(p.vel.y, VStencilOf(p), grid.cellSizeX, p.pos.x, p.pos.y);
      BlendOfEqual(p.vel.x);
      BlendOfEqual(p.vel.y);
    }

    /** When the grid did not change since set_uv_star, the update is the pure
        PIC step: the particle moves toward the interpolated velocity by Alpha. */
    lemma G2PUnchangedGrid(p: Particle)
      requires Valid() && G2PReadable(p)
      requires grid.u[..] == grid.uStar[..] && grid.v[..] == grid.vStar[..]
      ensures G2PVelocity(p).x == (1.0 - Alpha) * p.vel.x + Alpha * InterpU(p, false)
      ensures G2PVelocity(p).y == (1.0 - Alpha) * p.vel.y + Alpha * InterpV(p, false)
    {
      var su, sv := UStencilOf(p), VStencilOf(p);
      SameU(su.ix1, su.iy1);
      SameU(su.ix1, su.iy2);
      SameU(su.ix2, su.iy1);
      SameU(su.ix2, su.iy2);
      SameV(sv.ix1, sv.iy1);
      SameV(sv.ix1, sv.iy2);
      SameV(sv.ix2, sv.iy1);
      SameV(sv.ix2, sv.iy2);
      BlendUnchangedGrid(p.vel.x, InterpU(p, false));
      BlendUnchangedGrid(p.vel.y, InterpV(p, false));
    }

    lemma SameU(i: int, j: int)
      requires Valid() && grid.UReadable(i, j) && grid.u[..] == grid.uStar[..]
      ensures grid.GetUStar(i, j) == grid.GetU(i, j)
    {
      FlatInBuffer(grid.N + 1, grid.M, i, j);
      assert grid.u[Flat2(grid.N + 1, i, j)] == grid.u[..][Flat2(grid.N + 1, i, j)];
    }

    lemma SameV(i: int, j: int)
      requires Valid() && grid.VReadable(i, j) && grid.v[..] == grid.vStar[..]
      ensures grid.GetVStar(i, j) == grid.GetV(i, j)
    {
      FlatInBuffer(grid.N, grid.M + 1, i, j);
      assert grid.v[Flat2(grid.N, i, j)] == grid.v[..][Flat2(grid.N, i, j)];
    }

    /** Every particle's velocity becomes G2PVelocity of the particle; positions
        stay. */
    method GridToParticle()
      requires Valid() && forall n | 0 <= n < particles.Length :: G2PReadable(particles[n])
      modifies particles
      ensures forall n | 0 <= n < particles.Length ::
        particles[n] == old(particles[n]).(vel := G2PVelocity(old(particles[n])))
    {
      ghost var ps := particles[..];
      var i := 0;
      while i < particles.Length
        invariant 0 <= i <= particles.Length == |ps|
        invariant forall n | 0 <= n < |ps| :: G2PReadable(ps[n])
        invariant forall n | 0 <= n < i :: particles[n] == ps[n].(vel := G2PVelocity(ps[n]))
        invariant forall n | i <= n < particles.Length :: particles[n] == ps[n]
      {
        var uUpdate := G2POne(particles[i]);
        particles[i] := particles[i].(vel := uUpdate);
        i := i + 1;
      }
    }

    /** The body of grid_to_particle's loop: both rectangles, both
        interpolations of each, and the blend. */
    method G2POne(p: Particle) returns (uUpdate: Vec3)
      requires Valid() && G2PReadable(p)
      ensures uUpdate == G2PVelocity(p)
    {
      var alpha := 0.05;
      var x := p.pos.x;
      var y := p.pos.y;
      var sx := grid.cellSizeX;
      var sy := grid.cellSizeX;
      var indices := grid.IndexFromCoord(x, y);
      var first, second := indices.0, indices.1;
      CellSizePositive();
      var su := UStencilFor(first, second, y, sy);
      var starX := InterpAt(grid.GetUStar(su.ix1, su.iy1), grid.GetUStar(su.ix1, su.iy2),
                            grid.GetUStar(su.ix2, su.iy1), grid.GetUStar(su.ix2, su.iy2), su, sx, x, y);
      var newX := InterpAt(grid.GetU(su.ix1, su.iy1), grid.GetU(su.ix1, su.iy2),
                           grid.GetU(su.ix2, su.iy1), grid.GetU(su.ix2, su.iy2), su, sx, x, y);
      var sv := VStencilFor(first, second, x, sx);
      var starY := InterpAt(grid.GetVStar(sv.ix1, sv.iy1), grid.GetVStar(sv.ix1, sv.iy2),
                            grid.GetVStar(sv.ix2, sv.iy1), grid.GetVStar(sv.ix2, sv.iy2), sv, sx, x, y);
      var newY := InterpAt(grid.GetV(sv.ix1, sv.iy1), grid.GetV(sv.ix1, sv.iy2),
                           grid.GetV(sv.ix2, sv.iy1), grid.GetV(sv.ix2, sv.iy2), sv, sx, x, y);
      var interpStar := Vec3(starX, starY, 0.0);
      var interpNew := Vec3(newX, newY, 0.0);
      uUpdate := Add(Add(Scale(1.0 - alpha, p.vel), interpNew), Scale(alpha - 1.0, interpStar));
    }

    // -------------------------------------------------------------------------
    // do_pressures

    /** The pressure phase with the solver's result p given: the matrix and the
        right-hand side from the current grid, the pressures copied into the
        grid, and the gradient update of u and v from them. */
    method DoPressures(dt: real, p: seq<real>)
      requires Valid() && dt != 0.0 && fluidDensity != 0.0
      requires DiagCovers(grid.fluid[..], grid.aDiag) && RhsReadable() && grid.DiagBuilt()
      requires |p| == grid.N * grid.M
      modifies this`A, this`d, grid.pressure, grid.u, grid.v
      ensures MatrixInputs(grid.fluid[..], grid.aDiag, grid.N, grid.M)
      ensures A == MatrixTriplets(grid.fluid[..], grid.aDiag, grid.N, grid.M)
      ensures |d| == grid.N * grid.M
      ensures forall a, b | grid.InCell(a, b) :: d[Flat2(grid.N, a, b)] == old(CellRhs(a, b, dt))
      ensures grid.pressure[..] == p
      ensures forall a, b | grid.InU(a, b) :: grid.GetU(a, b) == UAfterGradient(a, b, dt, old(grid.GetU(a, b)))
      ensures forall a, b | grid.InV(a, b) :: grid.GetV(a, b) == VAfterGradient(a, b, dt, old(grid.GetV(a, b)))
      // what the guards leave of the system (NoFluidUnderGuards)
      ensures A == [] && forall a, b | grid.InCell(a, b) :: d[Flat2(grid.N, a, b)] == 0.0
    {
      NoFluidUnderGuards(dt);
      ComputePressureMatrix();
      ComputePressureRhs(dt);
      assert grid.pressure.Length == grid.N * grid.M;
      grid.SetPressure(p);
      ApplyPressureGradients(dt);
    }

    /** The guards of the pressure phase leave nothing to solve. A_diag_ has
        min(N,M) <= N entries, so DiagCovers lets only row-0 cells be fluid, and
        RhsReadable excludes those: no cell is fluid, the matrix is empty and
        every right-hand side entry is 0. */
    lemma NoFluidUnderGuards(dt: real)
      requires Valid() && dt != 0.0 && grid.DiagBuilt()
      requires DiagCovers(grid.fluid[..], grid.aDiag) && RhsReadable()
      ensures forall a, b | grid.InCell(a, b) :: !grid.IsFluid(a, b)
      ensures MatrixTriplets(grid.fluid[..], grid.aDiag, grid.N, grid.M) == []
      ensures forall a, b | grid.InCell(a, b) :: CellRhs(a, b, dt) == 0.0
    {
      var fl := grid.fluid[..];
      forall a | 0 <= a < grid.N
        ensures !fl[Flat2(grid.N, a, 0)]
      {
        assert grid.InCell(a, 0) && !grid.IsFluid(a, 0);
      }
      GuardsLeaveNoFluid(fl, grid.aDiag, grid.N, grid.M);
      NoFluidNoMatrix(fl, grid.aDiag, grid.N, grid.M);
    }

    // -------------------------------------------------------------------------
    // compute_velocity_field and step_FLIP

    /** compute_velocity_field up to the point where it stops: all velocities
        are cleared, and set_weights_to_zero fails its assertion in the first
        row (SetWeightsToZero), so the transfer that follows in the source,
        TransferToGrid, is never reached. */
    method ComputeVelocityField() returns (aborted: bool)
      requires Valid()
      modifies grid.u, grid.v, grid.weightsU, grid.weightsV
      ensures aborted
      ensures forall a, b | grid.InU(a, b) :: grid.GetU(a, b) == if a < grid.N then 0.0 else old(grid.GetU(a, b))
      ensures forall a, b | grid.InV(a, b) :: grid.GetV(a, b) == if b < grid.M then 0.0 else old(grid.GetV(a, b))
      ensures forall a, b | grid.InU(a, b) ::
        grid.GetWeightsU(a, b) == if b == 0 then 0.0 else old(grid.GetWeightsU(a, b))
      ensures forall a, b | grid.InV(a, b) ::
        grid.GetWeightsV(a, b) == if b == 0 then 0.0 else old(grid.GetWeightsV(a, b))
    {
      grid.SetVelocitiesToZero();
      aborted := grid.SetWeightsToZero();
    }

    /** step_FLIP with the CFL time step dtNew given: ceil(dt/dtNew) substeps.
        When there is at least one, the first advances every particle and then
        stops inside compute_velocity_field (SubstepEffects); when there is
        none, nothing changes. */
    method StepFlip(dt: real, dtNew: real, step: int) returns (numSubsteps: int, aborted: bool)
      requires Valid() && dtNew != 0.0
      modifies particles, grid.u, grid.v, grid.weightsU, grid.weightsV
      ensures numSubsteps == Ceil(dt / dtNew)
      ensures aborted <==> 0 < numSubsteps
      ensures aborted ==> SubstepEffects(old(particles[..]), old(grid.u[..]), old(grid.v[..]),
                                         old(grid.weightsU[..]), old(grid.weightsV[..]), dtNew, step)
      ensures !aborted ==> Unchanged(old(particles[..]), old(grid.u[..]), old(grid.v[..]),
                                     old(grid.weightsU[..]), old(grid.weightsV[..]))
    {
      numSubsteps := Ceil(dt / dtNew);
      aborted := false;
      var s := 0;
      while s < numSubsteps && !aborted
        invariant 0 <= s <= 1 && (aborted <==> s == 1) && (aborted ==> 0 < numSubsteps)
        invariant !aborted ==> Unchanged(old(particles[..]), old(grid.u[..]), old(grid.v[..]),
                                         old(grid.weightsU[..]), old(grid.weightsV[..]))
        invariant aborted ==> SubstepEffects(old(particles[..]), old(grid.u[..]), old(grid.v[..]),
                                             old(grid.weightsU[..]), old(grid.weightsV[..]), dtNew, step)
        decreases if aborted then 0 else 1
      {
        aborted := Substep(dtNew, step);
        s := s + 1;
      }
    }

    /** One pass of step_FLIP's loop body, as far as it runs: advance_particles,
        then compute_velocity_field, which stops the program. */
    method Substep(dtNew: real, step: int) returns (aborted: bool)
      requires Valid()
      modifies particles, grid.u, grid.v, grid.weightsU, grid.weightsV
      ensures aborted
      ensures SubstepEffects(old(particles[..]), old(grid.u[..]), old(grid.v[..]),
                             old(grid.weightsU[..]), old(grid.weightsV[..]), dtNew, step)
    {
      // 1. advance the particles
      AdvanceParticles(dtNew, step);
      // 2. compute_velocity_field stops in set_weights_to_zero
      aborted := ComputeVelocityField();
    }

    /** The rest of step_FLIP's loop body after compute_velocity_field, with the
        solver's pressures p: set_uv_star, apply_forces, apply_boundary_conditions,
        do_pressures, grid_to_particle. u* and v* keep the incoming field; u and
        v end as the gradient update of the field after forces and boundary
        conditions; every particle gets G2PVelocity against that final field. */
    method FinishSubstep(dt: real, p: seq<real>)
      requires Valid() && dt != 0.0 && fluidDensity != 0.0
      requires LastColumnAndRowSolid() && TopRow() <= grid.M
      requires DiagCovers(grid.fluid[..], grid.aDiag) && RhsReadable() && grid.DiagBuilt() && |p| == grid.N * grid.M
      requires forall n | 0 <= n < particles.Length :: G2PReadable(particles[n])
      modifies grid.uStar, grid.vStar, grid.u, grid.v, grid.pressure, this`A, this`d, particles
      ensures grid.uStar[..] == old(grid.u[..]) && grid.vStar[..] == old(grid.v[..])
      ensures MatrixInputs(grid.fluid[..], grid.aDiag, grid.N, grid.M)
      ensures A == MatrixTriplets(grid.fluid[..], grid.aDiag, grid.N, grid.M)
      ensures grid.pressure[..] == p
      ensures forall a, b | grid.InU(a, b) ::
        grid.GetU(a, b) == UAfterGradient(a, b, dt, if ZeroedU(a, b) then 0.0 else old(grid.GetU(a, b)))
      ensures forall a, b | grid.InV(a, b) ::
        grid.GetV(a, b) == VAfterGradient(a, b, dt, if ZeroedV(a, b) then 0.0 else old(grid.GetV(a, b)) + dt * gravityMag)
      ensures forall n | 0 <= n < particles.Length ::
        particles[n] == old(particles[n]).(vel := G2PVelocity(old(particles[n])))
      ensures A == [] && |d| == grid.N * grid.M && forall a, b | grid.InCell(a, b) :: d[Flat2(grid.N, a, b)] == 0.0
    {
      // 2a.
      grid.SetUVStar();
      // 3. - 5.
      GridUpdate(dt, p);
      // 6.
      GridToParticle();
    }

    /** Steps 3 to 5 of the substep: forces, boundary conditions, pressures. */
    method GridUpdate(dt: real, p: seq<real>)
      requires Valid() && dt != 0.0 && fluidDensity != 0.0
      requires LastColumnAndRowSolid() && TopRow() <= grid.M
      requires DiagCovers(grid.fluid[..], grid.aDiag) && RhsReadable() && grid.DiagBuilt() && |p| == grid.N * grid.M
      modifies grid.u, grid.v, grid.pressure, this`A, this`d
      ensures MatrixInputs(grid.fluid[..], grid.aDiag, grid.N, grid.M)
      ensures A == MatrixTriplets(grid.fluid[..], grid.aDiag, grid.N, grid.M)
      ensures grid.pressure[..] == p
      ensures forall a, b | grid.InU(a, b) ::
        grid.GetU(a, b) == UAfterGradient(a, b, dt, if ZeroedU(a, b) then 0.0 else old(grid.GetU(a, b)))
      ensures forall a, b | grid.InV(a, b) ::
        grid.GetV(a, b) == VAfterGradient(a, b, dt, if ZeroedV(a, b) then 0.0 else old(grid.GetV(a, b)) + dt * gravityMag)
      ensures A == [] && |d| == grid.N * grid.M && forall a, b | grid.InCell(a, b) :: d[Flat2(grid.N, a, b)] == 0.0
    {
      ForcesAndBoundaries(dt);
      DoPressures(dt, p);
    }

    /** Steps 3 and 4: gravity on every v face, then the boundary faces cleared. */
    method ForcesAndBoundaries(dt: real)
      requires Valid() && LastColumnAndRowSolid() && TopRow() <= grid.M
      modifies grid.u, grid.v
      ensures forall a, b | grid.InU(a, b) :: grid.GetU(a, b) == if ZeroedU(a, b) then 0.0 else old(grid.GetU(a, b))
      ensures forall a, b | grid.InV(a, b) ::
        grid.GetV(a, b) == if ZeroedV(a, b) then 0.0 else old(grid.GetV(a, b)) + dt * gravityMag
    {
      ApplyForces(dt);
      ApplyBoundaryConditions();
    }

    /** The state the first substep leaves, from the contents ps, u, v, wu, wv
        before it: every particle advanced once, u cleared in columns 0..N-1, v in
        rows 0..M-1, and row 0 of both weight buffers cleared. */
    ghost predicate SubstepEffects(ps: seq<Particle>, u: seq<real>, v: seq<real>, wu: seq<real>, wv: seq<real>,
                             dtNew: real, step: int)
      reads particles, grid.u, grid.v, grid.weightsU, grid.weightsV
      requires Valid()
    {
      |ps| == particles.Length && |u| == |wu| == grid.u.Length && |v| == |wv| == grid.v.Length
      && (forall n | 0 <= n < particles.Length ::
            particles[n] == Advanced(ps[n], dtNew, step, grid.cellSizeX, grid.cellSizeY, DomainX(), DomainY()))
      && (forall a, b | grid.InU(a, b) ::
            grid.GetU(a, b) == if a < grid.N then 0.0 else u[Flat2(grid.N + 1, a, b)])
      && (forall a, b | grid.InV(a, b) ::
            grid.GetV(a, b) == if b < grid.M then 0.0 else v[Flat2(grid.N, a, b)])
      && (forall a, b | grid.InU(a, b) ::
            grid.GetWeightsU(a, b) == if b == 0 then 0.0 else wu[Flat2(grid.N + 1, a, b)])
      && (forall a, b | grid.InV(a, b) ::
            grid.GetWeightsV(a, b) == if b == 0 then 0.0 else wv[Flat2(grid.N, a, b)])
    }

    /** The particles and the four buffers StepFlip may touch still hold the
        given contents. */
    ghost predicate Unchanged(ps: seq<Particle>, u: seq<real>, v: seq<real>, wu: seq<real>, wv: seq<real>)
      reads particles, grid.u, grid.v, grid.weightsU, grid.weightsV
    {
      particles[..] == ps && grid.u[..] == u && grid.v[..] == v && grid.weightsU[..] == wu && grid.weightsV[..] == wv
    }
  }
}
