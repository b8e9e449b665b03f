/**
 * Value-level definitions of the 2D FLIP engine: the kernel test and weight,
 * particle advection with its boundary reset, the bilinear interpolation and
 * the FLIP/PIC blend of the grid-to-particle transfer, and the triplet list of
 * the pressure matrix together with the facts proved about it.
 */
module Flip2dSpec {
  import opened Common

  /** check_threshold: the particle lies strictly within distance h of the grid
      point (`norm() < h`, compared on squares; false for every h <= 0). */
  function CheckThreshold(pos: Vec3, gc: Vec3, h: real): (r: bool)
    ensures r ==> 0.0 < h
    ensures 0.0 <= h ==> (r <==> Dist2(pos, gc) < h * h)
  {
    0.0 <= h && Dist2(pos, gc) < h * h
  }

  /** compute_weight: coeff * (h^2 - r^2), where coeff stands for 315/(64*pi*h^9). */
  function Weight(coeff: real, pos: Vec3, gc: Vec3, h: real): real
  {
    coeff * (h * h - Dist2(pos, gc))
  }

  /** Every weight that passes the kernel test is positive. */
  lemma AcceptedWeightPositive(coeff: real, pos: Vec3, gc: Vec3, h: real)
    requires 0.0 < coeff && CheckThreshold(pos, gc, h)
    ensures Weight(coeff, pos, gc, h) > 0.0
  {
    assert h * h - Dist2(pos, gc) > 0.0;
  }

  /** The kernel test is strict: a point at exactly distance h is rejected. */
  lemma ThresholdIsStrict(pos: Vec3, gc: Vec3, h: real)
    requires Dist2(pos, gc) == h * h
    ensures !CheckThreshold(pos, gc, h)
  {
  }

  /** One coordinate after the reset of advance_particles. Both tests read the
      coordinate as it was before either reset: below 0 it becomes a quarter
      cell, above `size` it becomes size minus a quarter cell. */
  function ResetCoord(x: real, cell: real, size: real): (r: real)
    ensures 0.0 <= x <= size ==> r == x
    ensures 0.0 < cell <= size ==> 0.0 <= r <= size
    ensures x < 0.0 && 0.0 <= size ==> r == cell * 0.25
    ensures size < x ==> r == size - cell * 0.25
  {
    var x1 := if x < 0.0 then cell * 0.25 else x;
    if x > size then size - cell * 0.25 else x1
  }

  /** The unclamped next position: forward Euler on step 0, leapfrog from the
      previous position afterwards. */
  function NextPosition(p: Particle, dt: real, step: int): (r: Vec3)
    ensures step == 0 ==> forall a :: Comp(r, a) == Comp(p.pos, a) + dt * Comp(p.vel, a)
    ensures step != 0 ==> forall a :: Comp(r, a) == Comp(p.prevPos, a) + 2.0 * dt * Comp(p.vel, a)
  {
    if step == 0 then Add(p.pos, Scale(dt, p.vel)) else Add(p.prevPos, Scale(2.0 * dt, p.vel))
  }

  /** The particle after advance_particles: x and y reset into [0,size], z as
      integrated; only the position changes. */
  function Advanced(p: Particle, dt: real, step: int, cellX: real, cellY: real, sizeX: real, sizeY: real): (r: Particle)
    ensures r.prevPos == p.prevPos && r.vel == p.vel
    ensures r.pos.z == NextPosition(p, dt, step).z
    ensures 0.0 < cellX <= sizeX ==> 0.0 <= r.pos.x <= sizeX
    ensures 0.0 < cellY <= sizeY ==> 0.0 <= r.pos.y <= sizeY
    ensures 0.0 <= NextPosition(p, dt, step).x <= sizeX ==> r.pos.x == NextPosition(p, dt, step).x
    ensures 0.0 <= NextPosition(p, dt, step).y <= sizeY ==> r.pos.y == NextPosition(p, dt, step).y
  {
    var next := NextPosition(p, dt, step);
    p.(pos := Vec3(ResetCoord(next.x, cellX, sizeX), ResetCoord(next.y, cellY, sizeY), next.z))
  }

  /** The bilinear formula of grid_to_particle on the rectangle [x1,x2] x [y1,y2]. */
  function Bilinear(q11: real, q12: real, q21: real, q22: real,
                    x1: real, x2: real, y1: real, y2: real, x: real, y: real): real
    requires x1 != x2 && y1 != y2
  {
    1.0 / ((x2 - x1) * (y2 - y1))
      * (q11 * (x2 - x) * (y2 - y) + q21 * (x - x1) * (y2 - y)
         + q12 * (x2 - x) * (y - y1) + q22 * (x - x1) * (y - y1))
  }

  /** The four bilinear weights sum to the rectangle's area. */
  lemma BilinearWeightsSum(x1: real, x2: real, y1: real, y2: real, x: real, y: real)
    ensures (x2 - x) * (y2 - y) + (x - x1) * (y2 - y) + (x2 - x) * (y - y1) + (x - x1) * (y - y1)
            == (x2 - x1) * (y2 - y1)
  {
    assert (x2 - x) * (y2 - y) + (x - x1) * (y2 - y) == (x2 - x1) * (y2 - y);
    assert (x2 - x) * (y - y1) + (x - x1) * (y - y1) == (x2 - x1) * (y - y1);
  }

  /** Hence a uniform field interpolates to itself, wherever the point lies. */
  lemma BilinearUniform(c: real, x1: real, x2: real, y1: real, y2: real, x: real, y: real)
    requires x1 != x2 && y1 != y2
    ensures Bilinear(c, c, c, c, x1, x2, y1, y2, x, y) == c
  {
    var area := (x2 - x1) * (y2 - y1);
    BilinearWeightsSum(x1, x2, y1, y2, x, y);
    assert c * (x2 - x) * (y2 - y) + c * (x - x1) * (y2 - y) + c * (x2 - x) * (y - y1) + c * (x - x1) * (y - y1)
        == c * ((x2 - x) * (y2 - y) + (x - x1) * (y2 - y) + (x2 - x) * (y - y1) + (x - x1) * (y - y1));
    assert area != 0.0;
    assert 1.0 / area * (c * area) == c;
  }

  /** At the lower-left corner the interpolation returns that corner's value. */
  lemma BilinearAtCorner(q11: real, q12: real, q21: real, q22: real,
                         x1: real, x2: real, y1: real, y2: real)
    requires x1 != x2 && y1 != y2
    ensures Bilinear(q11, q12, q21, q22, x1, x2, y1, y2, x1, y1) == q11
  {
    var area := (x2 - x1) * (y2 - y1);
    assert q11 * (x2 - x1) * (y2 - y1) == q11 * area;
    assert area != 0.0;
    assert 1.0 / area * (q11 * area) == q11;
  }

  /** The four face indices grid_to_particle interpolates between: columns
      ix1, ix2 and rows iy1, iy2. */
  datatype Stencil = Stencil(ix1: int, ix2: int, iy1: int, iy2: int)

  /** The u rectangle for a particle at height y in cell (ix,iy), cell size s:
      columns ix and ix+1, and rows iy, iy+1 when y lies above the middle of the
      cell, rows iy-1, iy otherwise. */
  function UStencil(ix: int, iy: int, y: real, s: real): (r: Stencil)
    ensures r.ix1 == ix && r.ix2 == ix + 1 && r.iy2 == r.iy1 + 1
    ensures r.iy1 <= iy <= r.iy2
    ensures r.iy1 == iy <==> y > (iy as real + 0.5) * s
  {
    if y > (iy as real + 0.5) * s then Stencil(ix, ix + 1, iy, iy + 1) else Stencil(ix, ix + 1, iy - 1, iy)
  }

  /** The v rectangle: rows iy and iy+1, and columns ix, ix+1 when x lies right
      of the middle of the cell, ix-1, ix otherwise. */
  function VStencil(ix: int, iy: int, x: real, s: real): (r: Stencil)
    ensures r.iy1 == iy && r.iy2 == iy + 1 && r.ix2 == r.ix1 + 1
    ensures r.ix1 <= ix <= r.ix2
    ensures r.ix1 == ix <==> x > (ix as real + 0.5) * s
  {
    if x > (ix as real + 0.5) * s then Stencil(ix, ix + 1, iy, iy + 1) else Stencil(ix - 1, ix, iy, iy + 1)
  }

  /** Neighbouring grid lines i*s and (i+1)*s are distinct, so Bilinear applies. */
  lemma LinesDistinct(i: int, s: real)
    requires s != 0.0
    ensures (i + 1) as real * s != i as real * s
  {
    assert (i + 1) as real * s - i as real * s == s;
  }

  /** A rectangle of the grid one cell wide and one cell high. */
  predicate UnitStencil(st: Stencil)
  {
    st.ix2 == st.ix1 + 1 && st.iy2 == st.iy1 + 1
  }

  /** The bilinear formula on the rectangle of stencil st with grid lines at
      multiples of the cell size s: corners x1 = ix1*s, x2 = ix2*s, y1 = iy1*s,
      y2 = iy2*s, q11 at (ix1,iy1), q12 at (ix1,iy2), q21 at (ix2,iy1), q22 at (ix2,iy2). */
  function InterpAt(q11: real, q12: real, q21: real, q22: real, st: Stencil, s: real, x: real, y: real): real
    requires s != 0.0 && UnitStencil(st)
  {
    LinesDistinct(st.ix1, s);
    LinesDistinct(st.iy1, s);
    Bilinear(q11, q12, q21, q22, st.ix1 as real * s, st.ix2 as real * s, st.iy1 as real * s, st.iy2 as real * s, x, y)
  }

  /** A field that is c at all four corners interpolates to c. */
  lemma InterpAtUniform(c: real, st: Stencil, s: real, x: real, y: real)
    requires s != 0.0 && UnitStencil(st)
    ensures InterpAt(c, c, c, c, st, s, x, y) == c
  {
    LinesDistinct(st.ix1, s);
    LinesDistinct(st.iy1, s);
    BilinearUniform(c, st.ix1 as real * s, st.ix2 as real * s, st.iy1 as real * s, st.iy2 as real * s, x, y);
  }

  /** Blending a velocity with two equal copies of itself gives it back. */
  lemma BlendOfEqual(c: real)
    ensures Blend(c, c, c) == c
  {
  }

  /** The fixed FLIP/PIC blend factor of grid_to_particle. */
  const Alpha: real := 0.05

  /** The velocity update old*(1-alpha) + new + star*(alpha-1) on one component. */
  function Blend(old_: real, new_: real, star: real): real
  {
    old_ * (1.0 - Alpha) + new_ + star * (Alpha - 1.0)
  }

  /** The update is the mix alpha*PIC + (1-alpha)*FLIP, where PIC takes the
      interpolated new velocity and FLIP adds its change to the old velocity. */
  lemma BlendIsFlipPicMix(old_: real, new_: real, star: real)
    ensures Blend(old_, new_, star) == Alpha * new_ + (1.0 - Alpha) * (old_ + (new_ - star))
  {
  }

  /** When the grid did not change between the two interpolations, the
      particle moves toward the grid velocity by alpha only. */
  lemma BlendUnchangedGrid(old_: real, g: real)
    ensures Blend(old_, g, g) == (1.0 - Alpha) * old_ + Alpha * g
  {
  }

  // ---------------------------------------------------------------------------
  // The triplet list of compute_pressure_matrix, over flat fluid flags fl
  // (cell (i,j) at i + n*j) and the diagonal vector diag.

  /** Entry k of A_diag_ is the triplet (k,k,v) with v >= 0, as the constructor builds it. */
  predicate DiagShaped(diag: seq<Triplet>)
  {
    forall k | 0 <= k < |diag| :: diag[k].row == k && diag[k].col == k && 0.0 <= diag[k].value
  }

  /** get_a_diag()[c] stays inside A_diag_ for every fluid cell c. */
  predicate DiagCovers(fl: seq<bool>, diag: seq<Triplet>)
  {
    forall k | 0 <= k < |fl| && fl[k] :: k < |diag|
  }

  predicate MatrixInputs(fl: seq<bool>, diag: seq<Triplet>, n: int, m: int)
  {
    0 < n && 0 < m && |fl| == n * m && DiagShaped(diag) && DiagCovers(fl, diag)
  }

  /** The pair (c,c+1), (c+1,c) of -1 entries pushed for cell c = (i,j) when its
      right neighbour is fluid. */
  function XPair(fl: seq<bool>, n: int, m: int, i: int, j: int): seq<Triplet>
    requires 0 < n && |fl| == n * m && 0 <= i < n && 0 <= j < m
  {
    if i + 1 < n && (Flat2Bounds(n, m, i + 1, j); fl[Flat2(n, i + 1, j)])
    then [Triplet(Flat2(n, i, j), Flat2(n, i, j) + 1, -1.0), Triplet(Flat2(n, i, j) + 1, Flat2(n, i, j), -1.0)]
    else []
  }

  /** The triplets pushed for cell (i,j): its A_diag_ entry and, when its right
      neighbour is fluid too, the x pair. The y-neighbour branch is absent
      because its guard j+ny < ny never holds. */
  function CellTriplets(fl: seq<bool>, diag: seq<Triplet>, n: int, m: int, i: int, j: int): seq<Triplet>
    requires MatrixInputs(fl, diag, n, m) && 0 <= i < n && 0 <= j < m
  {
    Flat2Bounds(n, m, i, j);
    if !fl[Flat2(n, i, j)] then [] else [diag[Flat2(n, i, j)]] + XPair(fl, n, m, i, j)
  }

  /** The triplets pushed for cells (0,j) .. (i-1,j). */
  function RowPrefix(fl: seq<bool>, diag: seq<Triplet>, n: int, m: int, i: int, j: int): seq<Triplet>
    requires MatrixInputs(fl, diag, n, m) && 0 <= i <= n && 0 <= j < m
    decreases i
  {
    if i == 0 then [] else RowPrefix(fl, diag, n, m, i - 1, j) + CellTriplets(fl, diag, n, m, i - 1, j)
  }

  /** The triplets pushed for rows 0 .. j-1, in loop order. */
  function Rows(fl: seq<bool>, diag: seq<Triplet>, n: int, m: int, j: int): seq<Triplet>
    requires MatrixInputs(fl, diag, n, m) && 0 <= j <= m
    decreases j
  {
    if j == 0 then [] else Rows(fl, diag, n, m, j - 1) + RowPrefix(fl, diag, n, m, n, j - 1)
  }

  /** The whole triplet list of compute_pressure_matrix. */
  function MatrixTriplets(fl: seq<bool>, diag: seq<Triplet>, n: int, m: int): seq<Triplet>
    requires MatrixInputs(fl, diag, n, m)
  {
    Rows(fl, diag, n, m, m)
  }

  /** Cells r and r+1 are horizontal neighbours in one row and both fluid. */
  predicate XNeighbours(fl: seq<bool>, n: int, m: int, r: int, c: int)
    requires |fl| == n * m
  {
    exists i, j | 0 <= i && i + 1 < n && 0 <= j < m :: r == Flat2(n, i, j) && c == r + 1
      && 0 <= r && c < |fl| && fl[r] && fl[c]
  }

  /** What every pushed triplet looks like: indices inside [0, n*m); a diagonal
      entry belongs to a fluid cell; any other entry is -1 and joins two
      horizontally adjacent fluid cells of the same row. */
  predicate WellFormed(fl: seq<bool>, n: int, m: int, t: Triplet)
    requires |fl| == n * m
  {
    && 0 <= t.row < n * m && 0 <= t.col < n * m
    && (t.row == t.col ==> fl[t.row] && 0.0 <= t.value)
    && (t.row != t.col ==>
          t.value == -1.0 && (XNeighbours(fl, n, m, t.row, t.col) || XNeighbours(fl, n, m, t.col, t.row)))
  }

  predicate AllWellFormed(fl: seq<bool>, n: int, m: int, ts: seq<Triplet>)
    requires |fl| == n * m
  {
    forall t | t in ts :: WellFormed(fl, n, m, t)
  }

  /** Every -1 entry has its mirror in the list. */
  predicate MirrorClosed(ts: seq<Triplet>)
  {
    forall t | t in ts && t.value == -1.0 :: Triplet(t.col, t.row, -1.0) in ts
  }

  lemma CellTripletsFacts(fl: seq<bool>, diag: seq<Triplet>, n: int, m: int, i: int, j: int)
    requires MatrixInputs(fl, diag, n, m) && 0 <= i < n && 0 <= j < m
    ensures AllWellFormed(fl, n, m, CellTriplets(fl, diag, n, m, i, j))
    ensures MirrorClosed(CellTriplets(fl, diag, n, m, i, j))
  {
    Flat2Bounds(n, m, i, j);
    var c := Flat2(n, i, j);
    var ts := CellTriplets(fl, diag, n, m, i, j);
    if fl[c] {
      assert diag[c].row == c && diag[c].col == c;
      if i + 1 < n {
        Flat2Bounds(n, m, i + 1, j);
        assert Flat2(n, i + 1, j) == c + 1;
        if fl[c + 1] {
          assert XNeighbours(fl, n, m, c, c + 1);
        }
      }
    }
  }

  lemma {:induction false} RowPrefixFacts(fl: seq<bool>, diag: seq<Triplet>, n: int, m: int, i: int, j: int)
    requires MatrixInputs(fl, diag, n, m) && 0 <= i <= n && 0 <= j < m
    ensures AllWellFormed(fl, n, m, RowPrefix(fl, diag, n, m, i, j))
    ensures MirrorClosed(RowPrefix(fl, diag, n, m, i, j))
    decreases i
  {
    if i > 0 {
      RowPrefixFacts(fl, diag, n, m, i - 1, j);
      CellTripletsFacts(fl, diag, n, m, i - 1, j);
    }
  }

  lemma {:induction false} RowsFacts(fl: seq<bool>, diag: seq<Triplet>, n: int, m: int, j: int)
    requires MatrixInputs(fl, diag, n, m) && 0 <= j <= m
    ensures AllWellFormed(fl, n, m, Rows(fl, diag, n, m, j))
    ensures MirrorClosed(Rows(fl, diag, n, m, j))
    decreases j
  {
    if j > 0 {
      RowsFacts(fl, diag, n, m, j - 1);
      RowPrefixFacts(fl, diag, n, m, n, j - 1);
    }
  }

  /** The pressure matrix's triplets: all indices below n*m, every -1 entry
      mirrored, diagonal entries only for fluid cells, and off-diagonal entries
      only between horizontal fluid neighbours of one row (never across rows). */
  lemma MatrixShape(fl: seq<bool>, diag: seq<Triplet>, n: int, m: int)
    requires MatrixInputs(fl, diag, n, m)
    ensures AllWellFormed(fl, n, m, MatrixTriplets(fl, diag, n, m))
    ensures MirrorClosed(MatrixTriplets(fl, diag, n, m))
  {
    RowsFacts(fl, diag, n, m, m);
  }

  /** The number of diagonal triplets (k,k,_) in a list. */
  function DiagCountAt(ts: seq<Triplet>, k: int): (r: nat)
    ensures r <= |ts|
  {
    if ts == [] then 0
    else (if ts[0].row == k && ts[0].col == k then 1 else 0) + DiagCountAt(ts[1..], k)
  }

  lemma {:induction false} DiagCountAtConcat(a: seq<Triplet>, b: seq<Triplet>, k: int)
    ensures DiagCountAt(a + b, k) == DiagCountAt(a, k) + DiagCountAt(b, k)
    decreases |a|
  {
    if a == [] {
      assert a + b == b;
    } else {
      assert (a + b)[1..] == a[1..] + b;
      DiagCountAtConcat(a[1..], b, k);
    }
  }

  /** A pair of -1 entries between two different cells holds no diagonal triplet. */
  lemma OffPairDiagCount(c: int, k: int)
    ensures DiagCountAt([Triplet(c, c + 1, -1.0), Triplet(c + 1, c, -1.0)], k) == 0
  {
    var ts := [Triplet(c, c + 1, -1.0), Triplet(c + 1, c, -1.0)];
    assert ts[1..][1..] == [];
  }

  lemma CellDiagCount(fl: seq<bool>, diag: seq<Triplet>, n: int, m: int, i: int, j: int, k: int)
    requires MatrixInputs(fl, diag, n, m) && 0 <= i < n && 0 <= j < m && 0 <= k < n * m
    ensures DiagCountAt(CellTriplets(fl, diag, n, m, i, j), k)
            == if k == Flat2(n, i, j) && fl[k] then 1 else 0
  {
    Flat2Bounds(n, m, i, j);
    var c := Flat2(n, i, j);
    if fl[c] {
      var d := diag[c];
      var tail := XPair(fl, n, m, i, j);
      DiagCountAtConcat([d], tail, k);
      OffPairDiagCount(c, k);
      assert DiagCountAt(tail, k) == 0;
      assert [d][1..] == [];
    }
  }

  lemma {:induction false} RowPrefixDiagCount(fl: seq<bool>, diag: seq<Triplet>, n: int, m: int, i: int, j: int, k: int)
    requires MatrixInputs(fl, diag, n, m) && 0 <= i <= n && 0 <= j < m
    requires 0 <= k < n * m
    ensures DiagCountAt(RowPrefix(fl, diag, n, m, i, j), k)
            == if n * j <= k < n * j + i && fl[k] then 1 else 0
    decreases i
  {
    if i > 0 {
      RowPrefixDiagCount(fl, diag, n, m, i - 1, j, k);
      CellDiagCount(fl, diag, n, m, i - 1, j, k);
      DiagCountAtConcat(RowPrefix(fl, diag, n, m, i - 1, j), CellTriplets(fl, diag, n, m, i - 1, j), k);
    }
  }

  lemma {:induction false} RowsDiagCount(fl: seq<bool>, diag: seq<Triplet>, n: int, m: int, j: int, k: int)
    requires MatrixInputs(fl, diag, n, m) && 0 <= j <= m && 0 <= k < n * m
    ensures DiagCountAt(Rows(fl, diag, n, m, j), k) == if k < n * j && fl[k] then 1 else 0
    decreases j
  {
    if j > 0 {
      RowsDiagCount(fl, diag, n, m, j - 1, k);
      RowPrefixDiagCount(fl, diag, n, m, n, j - 1, k);
      DiagCountAtConcat(Rows(fl, diag, n, m, j - 1), RowPrefix(fl, diag, n, m, n, j - 1), k);
      MulSucc(n, j - 1);
    }
  }

  lemma MulSucc(n: int, j: int)
    ensures n * j + n == n * (j + 1)
  {
  }

  /** Each fluid cell gets exactly one diagonal triplet and every other cell none. */
  lemma MatrixDiagonalExactlyFluid(fl: seq<bool>, diag: seq<Triplet>, n: int, m: int, k: int)
    requires MatrixInputs(fl, diag, n, m) && 0 <= k < n * m
    ensures DiagCountAt(MatrixTriplets(fl, diag, n, m), k) == if fl[k] then 1 else 0
  {
    RowsDiagCount(fl, diag, n, m, m, k);
  }

  // Completeness of the triplet list: horizontal fluid neighbours are linked
  // by both -1 entries. (Vertical neighbours never are: the y branch's guard
  // j+ny < ny cannot hold, and MatrixShape allows off-diagonal entries only
  // between cells of one row.)

  lemma TripletInConcat(t: Triplet, a: seq<Triplet>, b: seq<Triplet>)
    ensures t in a || t in b ==> t in a + b
  {
  }

  /** The first i cells of row j are a prefix of the first i+1. */
  lemma RowPrefixGrows(fl: seq<bool>, diag: seq<Triplet>, n: int, m: int, j: int, i: int, next: int, t: Triplet)
    requires MatrixInputs(fl, diag, n, m) && 0 <= i < n && 0 <= j < m && next == i + 1
    requires t in RowPrefix(fl, diag, n, m, i, j) || t in CellTriplets(fl, diag, n, m, i, j)
    ensures t in RowPrefix(fl, diag, n, m, next, j)
  {
    TripletInConcat(t, RowPrefix(fl, diag, n, m, i, j), CellTriplets(fl, diag, n, m, i, j));
  }

  /** A triplet pushed for cell (i,j) is in the row prefix of any later i'. */
  lemma {:induction false} CellInRowPrefix(fl: seq<bool>, diag: seq<Triplet>, n: int, m: int,
                                           i: int, i': int, j: int, t: Triplet)
    requires MatrixInputs(fl, diag, n, m) && 0 <= i < i' <= n && 0 <= j < m
    requires t in CellTriplets(fl, diag, n, m, i, j)
    ensures t in RowPrefix(fl, diag, n, m, i', j)
    decreases i'
  {
    if i' == i + 1 {
      RowPrefixGrows(fl, diag, n, m, j, i, i', t);
    } else {
      var prev := i' - 1;
      CellInRowPrefix(fl, diag, n, m, i, prev, j, t);
      RowPrefixGrows(fl, diag, n, m, j, prev, i', t);
    }
  }

  /** The first j rows are a prefix of the first j+1. */
  lemma RowsGrow(fl: seq<bool>, diag: seq<Triplet>, n: int, m: int, j: int, next: int, t: Triplet)
    requires MatrixInputs(fl, diag, n, m) && 0 <= j < m && next == j + 1
    requires t in Rows(fl, diag, n, m, j) || t in RowPrefix(fl, diag, n, m, n, j)
    ensures t in Rows(fl, diag, n, m, next)
  {
    TripletInConcat(t, Rows(fl, diag, n, m, j), RowPrefix(fl, diag, n, m, n, j));
  }

  /** A triplet pushed for row j is in the first j' rows for any later j'. */
  lemma {:induction false} RowInRows(fl: seq<bool>, diag: seq<Triplet>, n: int, m: int, j: int, j': int, t: Triplet)
    requires MatrixInputs(fl, diag, n, m) && 0 <= j < j' <= m
    requires t in RowPrefix(fl, diag, n, m, n, j)
    ensures t in Rows(fl, diag, n, m, j')
    decreases j'
  {
    if j' == j + 1 {
      RowsGrow(fl, diag, n, m, j, j', t);
    } else {
      var prev := j' - 1;
      RowInRows(fl, diag, n, m, j, prev, t);
      RowsGrow(fl, diag, n, m, prev, j', t);
    }
  }

  /** Two horizontally adjacent fluid cells r and r+1 of one row get both -1 entries. */
  lemma XNeighboursLinked(fl: seq<bool>, diag: seq<Triplet>, n: int, m: int, i: int, j: int)
    requires MatrixInputs(fl, diag, n, m) && 0 <= i && i + 1 < n && 0 <= j < m
    requires XNeighbours(fl, n, m, Flat2(n, i, j), Flat2(n, i, j) + 1)
    ensures var r := Flat2(n, i, j);
      Triplet(r, r + 1, -1.0) in MatrixTriplets(fl, diag, n, m)
      && Triplet(r + 1, r, -1.0) in MatrixTriplets(fl, diag, n, m)
  {
    Flat2Bounds(n, m, i, j);
    Flat2Bounds(n, m, i + 1, j);
    var r := Flat2(n, i, j);
    assert Flat2(n, i + 1, j) == r + 1;
    var i0, j0 :| 0 <= i0 && i0 + 1 < n && 0 <= j0 < m && r == Flat2(n, i0, j0)
      && 0 <= r && r + 1 < |fl| && fl[r] && fl[r + 1];
    assert fl[r] && fl[r + 1];
    var pr := XPair(fl, n, m, i, j);
    assert pr == [Triplet(r, r + 1, -1.0), Triplet(r + 1, r, -1.0)];
    assert CellTriplets(fl, diag, n, m, i, j) == [diag[r]] + pr;
    assert Triplet(r, r + 1, -1.0) in CellTriplets(fl, diag, n, m, i, j);
    assert Triplet(r + 1, r, -1.0) in CellTriplets(fl, diag, n, m, i, j);
    CellInRowPrefix(fl, diag, n, m, i, n, j, Triplet(r, r + 1, -1.0));
    RowInRows(fl, diag, n, m, j, m, Triplet(r, r + 1, -1.0));
    CellInRowPrefix(fl, diag, n, m, i, n, j, Triplet(r + 1, r, -1.0));
    RowInRows(fl, diag, n, m, j, m, Triplet(r + 1, r, -1.0));
  }

  /** The off-diagonal entries of the pressure matrix are exactly the -1 links
      between horizontally adjacent fluid cells of one row, in both directions. */
  lemma MatrixLinksExactly(fl: seq<bool>, diag: seq<Triplet>, n: int, m: int, r: int, c: int)
    requires MatrixInputs(fl, diag, n, m) && r != c
    ensures Triplet(r, c, -1.0) in MatrixTriplets(fl, diag, n, m)
            <==> XNeighbours(fl, n, m, r, c) || XNeighbours(fl, n, m, c, r)
  {
    if Triplet(r, c, -1.0) in MatrixTriplets(fl, diag, n, m) {
      MatrixShape(fl, diag, n, m);
      assert WellFormed(fl, n, m, Triplet(r, c, -1.0));
    }
    if XNeighbours(fl, n, m, r, c) {
      var i, j :| 0 <= i && i + 1 < n && 0 <= j < m && r == Flat2(n, i, j) && c == r + 1
        && 0 <= r && c < |fl| && fl[r] && fl[c];
      XNeighboursLinked(fl, diag, n, m, i, j);
    }
    if XNeighbours(fl, n, m, c, r) {
      var i, j :| 0 <= i && i + 1 < n && 0 <= j < m && c == Flat2(n, i, j) && r == c + 1
        && 0 <= c && r < |fl| && fl[c] && fl[r];
      XNeighboursLinked(fl, diag, n, m, i, j);
    }
  }

  /** Everything the triplet list of compute_pressure_matrix is: well formed
      and mirror closed, one diagonal entry per fluid cell and none for any
      other, and a -1 entry between two cells exactly when they are
      horizontal fluid neighbours. */
  lemma MatrixTripletsExact(fl: seq<bool>, diag: seq<Triplet>, n: int, m: int)
    requires MatrixInputs(fl, diag, n, m)
    ensures AllWellFormed(fl, n, m, MatrixTriplets(fl, diag, n, m))
    ensures MirrorClosed(MatrixTriplets(fl, diag, n, m))
    ensures forall k | 0 <= k < n * m :: DiagCountAt(MatrixTriplets(fl, diag, n, m), k) == if fl[k] then 1 else 0
    ensures forall r, c | r != c :: Triplet(r, c, -1.0) in MatrixTriplets(fl, diag, n, m)
              <==> XNeighbours(fl, n, m, r, c) || XNeighbours(fl, n, m, c, r)
  {
    MatrixShape(fl, diag, n, m);
    forall k | 0 <= k < n * m
      ensures DiagCountAt(MatrixTriplets(fl, diag, n, m), k) == if fl[k] then 1 else 0
    {
      MatrixDiagonalExactlyFluid(fl, diag, n, m, k);
    }
    forall r, c | r != c
      ensures Triplet(r, c, -1.0) in MatrixTriplets(fl, diag, n, m)
              <==> XNeighbours(fl, n, m, r, c) || XNeighbours(fl, n, m, c, r)
    {
      MatrixLinksExactly(fl, diag, n, m, r, c);
    }
  }

  // ---------------------------------------------------------------------------
  // apply_boundary_conditions

  /** The outer pass clears v row n*(m-1), which lies inside the v buffer (rows
      0..m) only when n*(m-1) <= m; on a grid of at least 2 x 2 cells that holds
      for the 2 x 2 grid alone. */
  lemma OuterRowFitsOnlyTwoByTwo(n: int, m: int)
    requires 1 < n && 1 < m && n * (m - 1) <= m
    ensures n == 2 && m == 2
  {
    MulLe(m - 1, 2, n);
    assert (m - 1) * 2 <= (m - 1) * n;
    assert m <= 2;
    assert n * (m - 1) == n;
  }

  /** A diagonal vector of at most n entries (min(n,m), as the grid's
      constructor builds it) reaches only row 0. So the guard that every fluid
      cell has its A_diag_ entry, together with the guard that row 0 holds no
      fluid cell, leaves no fluid cell at all. */
  lemma GuardsLeaveNoFluid(fl: seq<bool>, diag: seq<Triplet>, n: int, m: int)
    requires 0 < n && 0 < m && |fl| == n * m && |diag| <= n
    requires DiagCovers(fl, diag)
    requires forall a | 0 <= a < n :: !fl[Flat2(n, a, 0)]
    ensures forall k | 0 <= k < |fl| :: !fl[k]
  {
    forall k | 0 <= k < |fl|
      ensures !fl[k]
    {
      // a cell of row 0 is excluded by the second guard, and any later one
      // lies beyond the diagonal vector
      if k < n {
        assert Flat2(n, k, 0) == k;
      }
    }
  }

  /** Without fluid cells compute_pressure_matrix pushes nothing. */
  lemma NoFluidNoMatrix(fl: seq<bool>, diag: seq<Triplet>, n: int, m: int)
    requires MatrixInputs(fl, diag, n, m)
    requires forall k | 0 <= k < |fl| :: !fl[k]
    ensures MatrixTriplets(fl, diag, n, m) == []
  {
    RowsEmpty(fl, diag, n, m, m);
  }

  /** Without fluid cells the first j rows push nothing. */
  lemma {:induction false} RowsEmpty(fl: seq<bool>, diag: seq<Triplet>, n: int, m: int, j: int)
    requires MatrixInputs(fl, diag, n, m) && 0 <= j <= m
    requires forall k | 0 <= k < |fl| :: !fl[k]
    ensures Rows(fl, diag, n, m, j) == []
    decreases j
  {
    if j > 0 {
      RowsEmpty(fl, diag, n, m, j - 1);
      RowPrefixEmpty(fl, diag, n, m, n, j - 1);
    }
  }

  /** Without fluid cells a row prefix pushes nothing. */
  lemma {:induction false} RowPrefixEmpty(fl: seq<bool>, diag: seq<Triplet>, n: int, m: int, i: int, j: int)
    requires MatrixInputs(fl, diag, n, m) && 0 <= i <= n && 0 <= j < m
    requires forall k | 0 <= k < |fl| :: !fl[k]
    ensures RowPrefix(fl, diag, n, m, i, j) == []
    decreases i
  {
    if i > 0 {
      RowPrefixEmpty(fl, diag, n, m, i - 1, j);
      Flat2Bounds(n, m, i - 1, j);
    }
  }

  // ---------------------------------------------------------------------------
  // compute_pressure_rhs

  /** d_ij of compute_pressure_rhs before its scaling by density*dx/dt. The cell's
      faces are uL = u(i,j), uR = u(i+1,j), vB = v(i,j), vT = v(i,j+1); uFar =
      u(i-1,j) and vFar = v(i,j-1) are the further faces it reads; wallX says that
      side borders a solid cell or the grid edge. The negative divergence of the
      four faces is corrected by adding uR, uFar, vT, vFar on the wall sides. */
  function RhsDivergence(uL: real, uR: real, vB: real, vT: real, uFar: real, vFar: real,
                         wallL: bool, wallR: bool, wallB: bool, wallT: bool): (r: real)
    // a right or top wall face drops out of the sum; a left or bottom wall adds
    // the further face instead of removing its own
    ensures r == uL + vB + (if wallR then 0.0 else -uR) + (if wallT then 0.0 else -vT)
                 + (if wallL then uFar else 0.0) + (if wallB then vFar else 0.0)
    // with no wall side it is the negative discrete divergence
    ensures !wallL && !wallR && !wallB && !wallT ==> r == -((uR - uL) + (vT - vB))
  {
    var dij := -(uR - uL);
    var dij := dij - (vT - vB);
    var dij := if wallR then dij + uR else dij;
    var dij := if wallL then dij + uFar else dij;
    var dij := if wallT then dij + vT else dij;
    if wallB then dij + vFar else dij
  }

  // ---------------------------------------------------------------------------
  // apply_pressure_gradients

  /** One face update of apply_pressure_gradients: the face velocity minus the
      pressure difference across it times dt/(dx*density). With that factor
      positive, the velocity drops exactly when the pressure rises across the
      face (flow is pushed from high to low pressure), and a face with equal
      pressure on both sides keeps its velocity. */
  function PressureStep(vel: real, pHere: real, pBefore: real, factor: real): (r: real)
    ensures pHere == pBefore ==> r == vel
    ensures 0.0 < factor ==> (r < vel <==> pBefore < pHere) && (r > vel <==> pHere < pBefore)
  {
    var delta := (pHere - pBefore) * factor;
    vel - delta
  }
}
