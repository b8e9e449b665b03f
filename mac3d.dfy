/**
 * The 3D staggered (MAC) grid as the 3D FLIP engine uses it. The grid's own
 * implementation is not part of this model, so this class is a stand-in: it
 * holds each buffer as a three-dimensional array indexed (i, j, k), and the
 * services whose code is not shown are uninterpreted functions fixed at
 * construction:
 *   - index_from_coord, one function per axis (each index depends only on its
 *     own coordinate);
 *   - is_solid for indices outside the grid;
 *   - get_interp_u/v/w, a function of the axis, the contents of the field
 *     being interpolated and the point.
 * Face families: u has (N+1) x M x L faces, v has N x (M+1) x L faces, w has
 * N x M x (L+1) faces; cells (pressure, solid, fluid, A_diag) are N x M x L.
 */
module Mac3dGrid {
  import opened Common

  /** The contents of a three-dimensional buffer, as nested sequences. */
  function Contents(a: array3<real>): (r: seq<seq<seq<real>>>)
    reads a
    ensures |r| == a.Length0
    ensures forall i | 0 <= i < a.Length0 :: |r[i]| == a.Length1
    ensures forall i, j | 0 <= i < a.Length0 && 0 <= j < a.Length1 :: |r[i][j]| == a.Length2
    ensures forall i, j, k | 0 <= i < a.Length0 && 0 <= j < a.Length1 && 0 <= k < a.Length2 :: r[i][j][k] == a[i, j, k]
  {
    seq(a.Length0, i requires 0 <= i < a.Length0 reads a =>
      seq(a.Length1, j requires 0 <= j < a.Length1 reads a =>
        seq(a.Length2, k requires 0 <= k < a.Length2 reads a => a[i, j, k])))
  }

  /** The contents of a three-dimensional buffer of flags, as nested sequences. */
  function Flags(a: array3<bool>): (r: seq<seq<seq<bool>>>)
    reads a
    ensures |r| == a.Length0
    ensures forall i | 0 <= i < a.Length0 :: |r[i]| == a.Length1
    ensures forall i, j | 0 <= i < a.Length0 && 0 <= j < a.Length1 :: |r[i][j]| == a.Length2
    ensures forall i, j, k | 0 <= i < a.Length0 && 0 <= j < a.Length1 && 0 <= k < a.Length2 :: r[i][j][k] == a[i, j, k]
  {
    seq(a.Length0, i requires 0 <= i < a.Length0 reads a =>
      seq(a.Length1, j requires 0 <= j < a.Length1 reads a =>
        seq(a.Length2, k requires 0 <= k < a.Length2 reads a => a[i, j, k])))
  }

  /** Two buffers with equal shapes and equal entries have equal contents. */
  lemma SameContents(a: array3<real>, b: array3<real>)
    requires a.Length0 == b.Length0 && a.Length1 == b.Length1 && a.Length2 == b.Length2
    requires forall i, j, k | 0 <= i < a.Length0 && 0 <= j < a.Length1 && 0 <= k < a.Length2 :: a[i, j, k] == b[i, j, k]
    ensures Contents(a) == Contents(b)
  {
    var ca, cb := Contents(a), Contents(b);
    forall i | 0 <= i < a.Length0
      ensures ca[i] == cb[i]
    {
      forall j | 0 <= j < a.Length1
        ensures ca[i][j] == cb[i][j]
      {
      }
    }
  }

  /** Three fresh, distinct buffers of one shape: the velocities, their
      saved copy and the weights of one face family. */
  method NewFamily(w: nat, h: nat, d: nat) returns (vel: array3<real>, star: array3<real>, weights: array3<real>)
    ensures fresh(vel) && fresh(star) && fresh(weights)
    ensures vel != star && vel != weights && star != weights
    ensures vel.Length0 == star.Length0 == weights.Length0 == w
    ensures vel.Length1 == star.Length1 == weights.Length1 == h
    ensures vel.Length2 == star.Length2 == weights.Length2 == d
  {
    vel := new real[w, h, d];
    star := new real[w, h, d];
    weights := new real[w, h, d];
  }

  /** Fresh cell buffers: the pressures, the solid flags copied from
      solidInit, and the fluid flags all cleared. */
  method NewCells(solidInit: array3<bool>) returns (pressure: array3<real>, solid: array3<bool>, fluid: array3<bool>)
    ensures fresh(pressure) && fresh(solid) && fresh(fluid) && solid != fluid
    ensures pressure.Length0 == solid.Length0 == fluid.Length0 == solidInit.Length0
    ensures pressure.Length1 == solid.Length1 == fluid.Length1 == solidInit.Length1
    ensures pressure.Length2 == solid.Length2 == fluid.Length2 == solidInit.Length2
    ensures forall i, j, k | 0 <= i < solidInit.Length0 && 0 <= j < solidInit.Length1 && 0 <= k < solidInit.Length2 ::
      solid[i, j, k] == solidInit[i, j, k] && !fluid[i, j, k]
  {
    pressure := new real[solidInit.Length0, solidInit.Length1, solidInit.Length2];
    solid := new bool[solidInit.Length0, solidInit.Length1, solidInit.Length2]((i, j, k) reads solidInit =>
      if 0 <= i < solidInit.Length0 && 0 <= j < solidInit.Length1 && 0 <= k < solidInit.Length2
      then solidInit[i, j, k] else false);
    fluid := new bool[solidInit.Length0, solidInit.Length1, solidInit.Length2]((i, j, k) => false);
  }

  class Mac3d {
    const N: int
    const M: int
    const L: int
    const cellSizeX: real
    const cellSizeY: real
    const cellSizeZ: real
    /** get_grid_size: the extent of the domain along each axis. */
    const sizeX: real
    const sizeY: real
    const sizeZ: real
    const u: array3<real>
    const v: array3<real>
    const w: array3<real>
    const uStar: array3<real>
    const vStar: array3<real>
    const wStar: array3<real>
    const weightsU: array3<real>
    const weightsV: array3<real>
    const weightsW: array3<real>
    const pressure: array3<real>
    const solid: array3<bool>
    const fluid: array3<bool>
    /** get_a_diag: one diagonal triplet per cell, in the cell order i + j*N + N*M*k. */
    const aDiag: seq<Triplet>
    /** What is_solid answers for indices outside the grid. */
    const solidBeyond: (int, int, int) -> bool
    /** index_from_coord, per axis. */
    const cellX: real -> int
    const cellY: real -> int
    const cellZ: real -> int
    /** get_interp_u/v/w: the interpolated value of a field at a point. */
    const interp: (Axis, seq<seq<seq<real>>>, Vec3) -> real

    /** The number of faces of family ax along each axis. */
    function W(ax: Axis): int { if ax == X then N + 1 else N }
    function H(ax: Axis): int { if ax == Y then M + 1 else M }
    function D(ax: Axis): int { if ax == Z then L + 1 else L }

    predicate InFace(ax: Axis, i: int, j: int, k: int)
    {
      0 <= i < W(ax) && 0 <= j < H(ax) && 0 <= k < D(ax)
    }

    predicate InCell(i: int, j: int, k: int)
    {
      0 <= i < N && 0 <= j < M && 0 <= k < L
    }

    /** The velocity buffer, its saved copy and its weights for face family ax. */
    function Vel(ax: Axis): array3<real>
    {
      match ax
      case X => u
      case Y => v
      case Z => w
    }

    function Star(ax: Axis): array3<real>
    {
      match ax
      case X => uStar
      case Y => vStar
      case Z => wStar
    }

    function Weights(ax: Axis): array3<real>
    {
      match ax
      case X => weightsU
      case Y => weightsV
      case Z => weightsW
    }

    predicate Shaped(a: array3<real>, ax: Axis)
    {
      a.Length0 == W(ax) && a.Length1 == H(ax) && a.Length2 == D(ax)
    }

    /** Buffer shapes as allocated, no two buffers shared, positive cell sizes,
        and a diagonal triplet per cell. */
    predicate Valid()
    {
      && 0 < N && 0 < M && 0 < L
      && 0.0 < cellSizeX && 0.0 < cellSizeY && 0.0 < cellSizeZ
      && (forall ax :: Shaped(Vel(ax), ax) && Shaped(Star(ax), ax) && Shaped(Weights(ax), ax))
      && pressure.Length0 == N && pressure.Length1 == M && pressure.Length2 == L
      && solid.Length0 == N && solid.Length1 == M && solid.Length2 == L
      && fluid.Length0 == N && fluid.Length1 == M && fluid.Length2 == L
      && solid != fluid
      && (forall a, b :: Vel(a) != Star(b) && Vel(a) != Weights(b) && Star(a) != Weights(b))
      && (forall a, b | a != b :: Vel(a) != Vel(b) && Star(a) != Star(b) && Weights(a) != Weights(b))
      && (forall a :: pressure != Vel(a) && pressure != Star(a) && pressure != Weights(a))
      && |aDiag| == N * M * L
      && (forall c | 0 <= c < |aDiag| :: aDiag[c].row == c && aDiag[c].col == c)
    }

    constructor (n: int, m: int, l: int, dx: real, dy: real, dz: real, extent: Vec3,
                 solidInit: array3<bool>, diag: seq<Triplet>, beyond: (int, int, int) -> bool,
                 ix: real -> int, iy: real -> int, iz: real -> int,
                 interpolate: (Axis, seq<seq<seq<real>>>, Vec3) -> real)
      requires 0 < n && 0 < m && 0 < l && 0.0 < dx && 0.0 < dy && 0.0 < dz
      requires solidInit.Length0 == n && solidInit.Length1 == m && solidInit.Length2 == l
      requires |diag| == n * m * l && forall c | 0 <= c < |diag| :: diag[c].row == c && diag[c].col == c
      ensures Valid() && N == n && M == m && L == l
      ensures cellSizeX == dx && cellSizeY == dy && cellSizeZ == dz
      ensures sizeX == extent.x && sizeY == extent.y && sizeZ == extent.z
      ensures aDiag == diag && solidBeyond == beyond && interp == interpolate
      ensures cellX == ix && cellY == iy && cellZ == iz
      ensures forall i, j, k | InCell(i, j, k) :: solid[i, j, k] == solidInit[i, j, k] && !fluid[i, j, k]
      ensures forall ax :: fresh(Vel(ax)) && fresh(Star(ax)) && fresh(Weights(ax))
      ensures fresh(pressure) && fresh(solid) && fresh(fluid)
    {
      N, M, L := n, m, l;
      cellSizeX, cellSizeY, cellSizeZ := dx, dy, dz;
      sizeX, sizeY, sizeZ := extent.x, extent.y, extent.z;
      var u0, uStar0, weightsU0 := NewFamily(n + 1, m, l);
      var v0, vStar0, weightsV0 := NewFamily(n, m + 1, l);
      var w0, wStar0, weightsW0 := NewFamily(n, m, l + 1);
      u, uStar, weightsU := u0, uStar0, weightsU0;
      v, vStar, weightsV := v0, vStar0, weightsV0;
      w, wStar, weightsW := w0, wStar0, weightsW0;
      var pressure0, solid0, fluid0 := NewCells(solidInit);
      pressure, solid, fluid := pressure0, solid0, fluid0;
      aDiag := diag;
      solidBeyond := beyond;
      cellX, cellY, cellZ := ix, iy, iz;
      interp := interpolate;
    }

    /** is_solid: the solid flag inside the grid, the stand-in's answer outside it. */
    function IsSolid(i: int, j: int, k: int): bool
      reads solid
      requires Valid()
    {
      if InCell(i, j, k) then solid[i, j, k] else solidBeyond(i, j, k)
    }

    function IsFluid(i: int, j: int, k: int): bool
      reads fluid
      requires Valid() && InCell(i, j, k)
    {
      fluid[i, j, k]
    }

    /** index_from_coord. */
    function IndexFromCoord(p: Vec3): (int, int, int)
    {
      (cellX(p.x), cellY(p.y), cellZ(p.z))
    }

    /** get_interp_u/v/w(x, y, z, star): interpolation of the field or of its
        saved copy. */
    function Interp(ax: Axis, p: Vec3, star: bool): real
      reads Vel(ax), Star(ax)
    {
      interp(ax, Contents(if star then Star(ax) else Vel(ax)), p)
    }

    /** set_velocities_to_zero. */
    method SetVelocitiesToZero()
      requires Valid()
      modifies u, v, w
      ensures forall ax, i, j, k | InFace(ax, i, j, k) :: Vel(ax)[i, j, k] == 0.0
    {
      forall i, j, k | 0 <= i < u.Length0 && 0 <= j < u.Length1 && 0 <= k < u.Length2 {
        u[i, j, k] := 0.0;
      }
      forall i, j, k | 0 <= i < v.Length0 && 0 <= j < v.Length1 && 0 <= k < v.Length2 {
        v[i, j, k] := 0.0;
      }
      forall i, j, k | 0 <= i < w.Length0 && 0 <= j < w.Length1 && 0 <= k < w.Length2 {
        w[i, j, k] := 0.0;
      }
    }

    /** set_weights_to_zero. */
    method SetWeightsToZero()
      requires Valid()
      modifies weightsU, weightsV, weightsW
      ensures forall ax, i, j, k | InFace(ax, i, j, k) :: Weights(ax)[i, j, k] == 0.0
    {
      forall i, j, k | 0 <= i < weightsU.Length0 && 0 <= j < weightsU.Length1 && 0 <= k < weightsU.Length2 {
        weightsU[i, j, k] := 0.0;
      }
      forall i, j, k | 0 <= i < weightsV.Length0 && 0 <= j < weightsV.Length1 && 0 <= k < weightsV.Length2 {
        weightsV[i, j, k] := 0.0;
      }
      forall i, j, k | 0 <= i < weightsW.Length0 && 0 <= j < weightsW.Length1 && 0 <= k < weightsW.Length2 {
        weightsW[i, j, k] := 0.0;
      }
    }

    /** reset_fluid. */
    method ResetFluid()
      requires Valid()
      modifies fluid
      ensures forall i, j, k | InCell(i, j, k) :: !fluid[i, j, k]
    {
      forall i, j, k | 0 <= i < fluid.Length0 && 0 <= j < fluid.Length1 && 0 <= k < fluid.Length2 {
        fluid[i, j, k] := false;
      }
    }

    /** set_fluid. */
    method SetFluid(i: int, j: int, k: int)
      requires Valid() && InCell(i, j, k)
      modifies fluid
      ensures forall a, b, c | InCell(a, b, c) :: fluid[a, b, c] == (old(fluid[a, b, c]) || (a, b, c) == (i, j, k))
    {
      fluid[i, j, k] := true;
    }

    /** set_uvw_star: each velocity field copied into its saved copy. */
    method SetUVWStar()
      requires Valid()
      modifies uStar, vStar, wStar
      ensures forall ax, i, j, k | InFace(ax, i, j, k) :: Star(ax)[i, j, k] == Vel(ax)[i, j, k]
    {
      assert Shaped(Vel(X), X) && Shaped(Vel(Y), Y) && Shaped(Vel(Z), Z);
      forall i, j, k | 0 <= i < uStar.Length0 && 0 <= j < uStar.Length1 && 0 <= k < uStar.Length2 {
        uStar[i, j, k] := u[i, j, k];
      }
      forall i, j, k | 0 <= i < vStar.Length0 && 0 <= j < vStar.Length1 && 0 <= k < vStar.Length2 {
        vStar[i, j, k] := v[i, j, k];
      }
      forall i, j, k | 0 <= i < wStar.Length0 && 0 <= j < wStar.Length1 && 0 <= k < wStar.Length2 {
        wStar[i, j, k] := w[i, j, k];
      }
    }

    /** set_pressure: the solver's vector, in the cell order i + j*N + N*M*k. */
    method SetPressure(p: seq<real>)
      requires Valid() && |p| == N * M * L
      modifies pressure
      ensures forall i, j, k | InCell(i, j, k) ::
        0 <= Flat3(N, M, i, j, k) < |p| && pressure[i, j, k] == p[Flat3(N, M, i, j, k)]
    {
      forall i, j, k | InCell(i, j, k)
        ensures 0 <= Flat3(N, M, i, j, k) < |p|
      {
        Flat3Bounds(N, M, L, i, j, k);
      }
      forall i, j, k | 0 <= i < pressure.Length0 && 0 <= j < pressure.Length1 && 0 <= k < pressure.Length2 {
        pressure[i, j, k] := p[Flat3(N, M, i, j, k)];
      }
    }
  }
}
