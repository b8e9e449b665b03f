# WaterSim FLIP core in Dafny

This project models the fluid solver of WaterSim, a FLIP (fluid implicit particle) water simulator with a
2D and a 3D engine. Velocities live on a staggered MAC grid. The x-velocity `u` sits on the left face of
each cell, `v` on its lower face and, in 3D, `w` on its back face. Pressures and the solid and fluid flags
sit at cell centres. Each time step the engine:

1. splats the particles' velocities onto the grid with a kernel of radius h, then normalises by the
   accumulated weights and, in 3D, extrapolates into unreached faces;
2. saves a copy of the field (the "star" field);
3. applies gravity and the wall boundary conditions;
4. assembles the pressure system `A p = d`, takes its solution, and subtracts the pressure gradient;
5. blends the new grid velocity back into the particles as a FLIP/PIC mix;
6. advances the particles (in 3D with a CFL time step split into substeps), keeping them off solid cells.

Modules:

- `Common` (common.dfy): vectors, particles, matrix triplets, `Ceil`/`Trunc`, and the flat row-major
  layouts `Flat2`/`Flat3` with their bijection lemmas.
- `Mac2dGrid` (mac2d.dfy): class `Mac2d`, the 2D MAC grid, with its flat buffers as arrays, exactly as
  `Mac2d.cpp` addresses them.
- `Flip2dSpec` (flip2d_spec.dfy): pure definitions and lemmas for the 2D engine (kernel, stencils,
  blend, the pressure matrix and right-hand side).
- `Flip2dEngine` (flip2d.dfy): class `Flip2d`, every phase of the 2D `FLIP.cpp` as a method over the grid.
- `Mac3dGrid` (mac3d.dfy): class `Mac3d`, the 3D grid that the 3D engine drives, with buffers as `array3`.
- `Extrapolation3d` (extrapolate3d.dfy): the extrapolation of velocities into faces no particle reached.
- `Flip3dSpec` (flip3d_spec.dfy): pure definitions and lemmas for the 3D engine (CFL time step, kernel,
  transfer, blend, clamping, right-hand side, the pressure matrix shape).
- `Flip3dEngine` (flip3d.dfy): class `Flip3d`, every phase of the 3D `FLIP.cpp` and the whole `step_FLIP`.

Scalars are `real`, so floating-point rounding is not modelled. Integer indices are unbounded `int`.
Grid-changing operations are methods on the classes, with `modifies` clauses and loop invariants. Their
`ensures` give the whole new state cell by cell, as a function of the old state. Pure
`Flip2dSpec`/`Flip3dSpec` functions define the cell-level values, and lemmas prove what these values
mean: the kernel weights, the conservation of uniform flow, the FLIP/PIC mix, and the symmetry,
diagonal and exact neighbour links of the pressure matrix.

The 2D source has several defects. They are modelled as written, and the conditions under which each
operation can run are stated as preconditions and documented at the member:

- `index_from_coord` asserts that the point lies OUTSIDE the grid.
- `cell_sizey_` is set from `sizex`.
- `set_weights_to_zero` always fails an assertion.
- `apply_boundary_conditions` writes outside the v buffer unless the grid is 2 x 2.
- `compute_pressure_rhs` reads before the v buffer for a fluid cell in row 0.
- `compute_pressure_matrix` reads `get_a_diag()[i + j*nx]` for every fluid cell (2d/include/FLIP.cpp:379).
  The constructor pushes only min(N, M) entries into `A_diag_` (2d/include/Mac2d.h:47-60), so the read
  leaves the vector for every fluid cell past flat index min(N, M) - 1 (`DiagCovers`).

Taken together, these guards leave the 2D pressure phase nothing to solve:
- The flat slots below min(N, M) all lie in row 0.
- So `DiagCovers` lets only row-0 cells be fluid, and the `compute_pressure_rhs` guard (`RhsReadable`)
  excludes those too (`GuardsLeaveNoFluid`, `NoFluidUnderGuards`).
- On every grid that meets both guards, no cell is fluid, the matrix is empty and every right-hand side
  entry is 0. The contracts of `DoPressures`, `GridUpdate` and `FinishSubstep` state this.
- Separately, the grid's constructor demands N > 1 and M > 1, so the boundary guard allows only the
  2 x 2 grid (`OuterRowFitsOnlyTwoByTwo`).

## Model

| member | source | states |
|---|---|---|
| `Common.Ceil` | 3d/include/FLIP.cpp:47 | the smallest integer at or above x: x <= r < x + 1 |
| `Common.Trunc` | 2d/include/Mac2d.cpp:131 | C++ `int(x)` truncates toward zero: r is the integer part of x for either sign (r <= x < r+1 for x >= 0, r-1 < x <= r for x < 0) |
| `Common.Dist2` | 2d/include/FLIP.cpp:175-184 | the squared distance that stands in for `norm()` is never negative |
| `Common.B2I` | 2d/include/Mac2d.h:47-60 | the 0/1 indicator of a flag: 1 exactly when the flag holds |
| `Common.Flat2Bounds` | 2d/include/Mac2d.cpp:3-6 | the row-major index `w*j + i` of an in-shape cell lies in [0, w*h) |
| `Common.Flat2Injective` | 2d/include/Mac2d.cpp:3-6 | two in-row cells with the same flat index are the same cell, so distinct faces are distinct slots |
| `Common.Flat2Before` | 2d/include/FLIP.cpp:374-398 | the j-outer, i-inner loop order numbers the cells in increasing flat order |
| `Common.Flat3Step` | 3d/include/FLIP.cpp:323-378 | one row on moves the 3D flat index `i + j*w + k*w*h` by w, one plane on moves it by w*h |
| `Common.Flat3Bounds` | 3d/include/FLIP.cpp:323-378 | the 3D flat index of an in-shape cell lies in [0, w*h*l) |
| `Common.Flat3Injective` | 3d/include/FLIP.cpp:323-378 | the 3D flat layout is injective on in-shape cells, so `visited_*`, `counter` and the system's indices may be modelled as 3D arrays |
| `Mac2dGrid.FlatInBuffer` | 2d/include/Mac2d.cpp:3-6 | an access that passes the upper-bound assertion and does not fall before the buffer stays inside the buffer |
| `Mac2dGrid.DiagCount` | 2d/include/Mac2d.h:47-60 | the constructor's count for the index-th diagonal entry is between 0 and 2 at the first and last index and between 0 and 4 elsewhere |
| `Mac2dGrid.Mac2d.InU` | 2d/include/Mac2d.cpp:3-6 | every in-shape u face passes get_u's assertion and addresses a slot inside the u buffer |
| `Mac2dGrid.Mac2d.InV` | 2d/include/Mac2d.cpp:8-11 | every in-shape v face passes get_v's assertion and addresses a slot inside the v buffer |
| `Mac2dGrid.Mac2d.InCell` | 2d/include/Mac2d.cpp:13-26 | every in-shape cell passes the cell assertion and addresses a slot inside the cell buffers |
| `Mac2dGrid.Mac2d.GetU` | 2d/include/Mac2d.cpp:3-6 | reads slot (N+1)*j + i of the u buffer, inside it by FlatInBuffer; it is the slot SetU writes, so after SetU(i,j,x) face (i,j) reads x and every other in-shape face its old value (SetU's ensures) |
| `Mac2dGrid.Mac2d.GetV` | 2d/include/Mac2d.cpp:8-11 | reads slot N*j + i of the v buffer; after SetV(i,j,x) face (i,j) reads x and every other in-shape face its old value (SetV's ensures) |
| `Mac2dGrid.Mac2d.GetPressure` | 2d/include/Mac2d.cpp:13-16 | reads slot N*j + i of the pressure buffer; after SetPressureAt(i,j,x) it reads x (SetPressureAt's ensures) |
| `Mac2dGrid.Mac2d.IsSolid` | 2d/include/Mac2d.cpp:18-21 | reads the solid flag at slot N*j + i; after SetSolid(i,j) it holds (SetSolid's ensures) |
| `Mac2dGrid.Mac2d.IsFluid` | 2d/include/Mac2d.cpp:23-26 | reads the fluid flag at slot N*j + i; after SetFluid(i,j) exactly cell (i,j) changes to fluid, and after ResetFluid no cell is fluid (their ensures) |
| `Mac2dGrid.Mac2d.GetWeightsU` | 2d/include/Mac2d.cpp:52-55 | reads slot (N+1)*j + i of the u weights; after SetWeightsU(i,j,x) face (i,j) reads x and every other in-shape face its old value (SetWeightsU's ensures) |
| `Mac2dGrid.Mac2d.GetWeightsV` | 2d/include/Mac2d.cpp:57-60 | reads slot N*j + i of the v weights; after SetWeightsV(i,j,x) face (i,j) reads x and every other in-shape face its old value (SetWeightsV's ensures) |
| `Mac2dGrid.Mac2d.IsEmpty` | 2d/include/Mac2d.cpp:28-31 | a cell is empty exactly when it is neither fluid nor solid |
| `Mac2dGrid.Mac2d.IndexFromCoord` | 2d/include/Mac2d.cpp:128-132 | callable only for points outside the grid (the assertion as written); the pair is the raw coordinates truncated toward zero, not divided by the cell size |
| `Mac2dGrid.Mac2d.SetU` | 2d/include/Mac2d.cpp:67-70 | exactly one flat slot of u changes, to value; for i >= 0 that is face (i,j) and no other face |
| `Mac2dGrid.Mac2d.SetV` | 2d/include/Mac2d.cpp:72-75 | exactly one flat slot of v changes, to value; for i >= 0 that is face (i,j) and no other face |
| `Mac2dGrid.Mac2d.SetPressureAt` | 2d/include/Mac2d.cpp:77-80 | exactly the pressure slot of cell (i,j) changes, to value |
| `Mac2dGrid.Mac2d.SetWeightsU` | 2d/include/Mac2d.cpp:82-85 | exactly one slot of the u weights changes, to value; for i >= 0 that is face (i,j) |
| `Mac2dGrid.Mac2d.SetWeightsV` | 2d/include/Mac2d.cpp:87-90 | exactly one slot of the v weights changes, to value; for i >= 0 that is face (i,j) |
| `Mac2dGrid.Mac2d.SetSolid` | 2d/include/Mac2d.cpp:114-117 | exactly the solid flag of cell (i,j) becomes true |
| `Mac2dGrid.Mac2d.SetFluid` | 2d/include/Mac2d.cpp:119-122 | exactly the fluid flag of cell (i,j) becomes true; every other cell keeps its flag |
| `Mac2dGrid.Mac2d.ResetFluid` | 2d/include/Mac2d.cpp:124-126 | afterwards no cell is fluid |
| `Mac2dGrid.Mac2d.SetPressure` | 2d/include/Mac2d.cpp:110-112 | the solver's vector is copied into the front of the pressure buffer and the rest keeps its values |
| `Mac2dGrid.Mac2d.SetUVStar` | 2d/include/FLIP.cpp:38 | the star fields become copies of the current u and v |
| `Mac2dGrid.Mac2d.SetVelocitiesToZero` | 2d/include/Mac2d.cpp:92-99 | every u face except the last column, and every v face except the last row, becomes 0; those two keep their values (loop bounds as written) |
| `Mac2dGrid.Mac2d.SetWeightsToZero` | 2d/include/Mac2d.cpp:101-108 | the call always stops at the failing assertion of set_weights_v(N,0); by then row 0 of both weight fields is zero and the rest untouched |
| `Mac2dGrid.Mac2d.constructor` | 2d/include/Mac2d.h:39-61 | a valid grid of n x m cells with the given solid flags, both cell sizes sizex/n (as written), and diagonal triplet k equal to the count of not-solid neighbours of cell (k,k) |
| `Flip2dSpec.CheckThreshold` | 2d/include/FLIP.cpp:175-184 | the kernel test accepts exactly the points strictly within distance h of the grid point, and none at all when h <= 0 |
| `Flip2dSpec.Weight` | 2d/include/FLIP.cpp:186-192 | compute_weight of the 2D engine, coeff*(h^2 - r^2) with coeff for 315/(64*pi*h^9); AcceptedWeightPositive proves it positive on every point the kernel test accepts |
| `Flip2dSpec.AcceptedWeightPositive` | 2d/include/FLIP.cpp:186-192 | every weight that passes the kernel test is positive |
| `Flip2dSpec.ThresholdIsStrict` | 2d/include/FLIP.cpp:175-184 | a point at exactly distance h is rejected |
| `Flip2dSpec.ResetCoord` | 2d/include/FLIP.cpp:651-666 | an in-domain coordinate is kept; one below 0 becomes a quarter cell and one above size becomes size minus a quarter cell, so the result lies in [0, size] |
| `Flip2dSpec.NextPosition` | 2d/include/FLIP.cpp:611-618 | forward Euler from the position on step 0, leapfrog from the previous position with 2*dt afterwards |
| `Flip2dSpec.Advanced` | 2d/include/FLIP.cpp:602-691 | only the position changes; x and y land in the domain and equal the integrated value whenever that one is already inside; z is the integrated value |
| `Flip2dSpec.BilinearWeightsSum` | 2d/include/FLIP.cpp:543-559 | the four bilinear weights sum to the rectangle's area |
| `Flip2dSpec.BilinearUniform` | 2d/include/FLIP.cpp:543-559 | a field equal to c at all four corners interpolates to c at every point |
| `Flip2dSpec.BilinearAtCorner` | 2d/include/FLIP.cpp:543-559 | at a corner the interpolation returns that corner's value |
| `Flip2dSpec.UStencil` | 2d/include/FLIP.cpp:528-541 | the u rectangle spans columns ix, ix+1 and two adjacent rows around iy; it is the upper pair iy, iy+1 exactly when the particle lies above the middle of its cell |
| `Flip2dSpec.VStencil` | 2d/include/FLIP.cpp:562-575 | the v rectangle spans rows iy, iy+1 and two adjacent columns around ix; it is the right pair ix, ix+1 exactly when the particle lies right of the middle of its cell |
| `Flip2dSpec.LinesDistinct` | 2d/include/FLIP.cpp:547-550 | neighbouring grid lines are distinct, so the interpolation's divisor is nonzero |
| `Flip2dSpec.InterpAtUniform` | 2d/include/FLIP.cpp:543-593 | interpolating a uniform field on a grid stencil returns that uniform value |
| `Flip2dSpec.Blend` | 2d/include/FLIP.cpp:596 | the 2D velocity update old*(1-alpha) + new + star*(alpha-1) with alpha = 0.05; BlendIsFlipPicMix, BlendOfEqual and BlendUnchangedGrid prove it is the alpha PIC / (1-alpha) FLIP mix |
| `Flip2dSpec.BlendOfEqual` | 2d/include/FLIP.cpp:596 | blending a velocity with two equal copies of itself returns it |
| `Flip2dSpec.BlendIsFlipPicMix` | 2d/include/FLIP.cpp:596 | the update is alpha times PIC (the new grid velocity) plus (1 - alpha) times FLIP (the old velocity plus the grid's change) |
| `Flip2dSpec.BlendUnchangedGrid` | 2d/include/FLIP.cpp:596 | with an unchanged grid the particle moves toward the grid velocity by the share alpha only |
| `Flip2dSpec.CellTripletsFacts` | 2d/include/FLIP.cpp:374-398 | one cell's triplets have in-range indices, a diagonal only for a fluid cell, -1 entries only between fluid row neighbours, and every -1 entry mirrored |
| `Flip2dSpec.RowPrefixFacts` | 2d/include/FLIP.cpp:374-398 | the same holds for the triplets of a row prefix |
| `Flip2dSpec.RowsFacts` | 2d/include/FLIP.cpp:374-398 | the same holds for the triplets of the first j rows |
| `Flip2dSpec.MatrixShape` | 2d/include/FLIP.cpp:355-404 | the pressure matrix is symmetric in its -1 entries, stays inside n*m, puts diagonals only on fluid cells and couples only horizontal fluid neighbours of one row |
| `Flip2dSpec.DiagCountAtConcat` | 2d/include/FLIP.cpp:374-398 | diagonal counts add over concatenated triplet lists |
| `Flip2dSpec.OffPairDiagCount` | 2d/include/FLIP.cpp:389-395 | a neighbour pair of -1 entries adds no diagonal |
| `Flip2dSpec.CellDiagCount` | 2d/include/FLIP.cpp:374-398 | one cell contributes exactly one diagonal, to its own index, when fluid, and none otherwise |
| `Flip2dSpec.RowPrefixDiagCount` | 2d/include/FLIP.cpp:374-398 | a row prefix holds exactly one diagonal per fluid cell it covers |
| `Flip2dSpec.RowsDiagCount` | 2d/include/FLIP.cpp:374-398 | the first j rows hold exactly one diagonal per fluid cell among them |
| `Flip2dSpec.MatrixDiagonalExactlyFluid` | 2d/include/FLIP.cpp:355-404 | the assembled matrix has exactly one diagonal triplet per fluid cell and none for any other cell |
| `Flip2dSpec.RowPrefixGrows` | 2d/include/FLIP.cpp:376-397 | a triplet among the pushes of the first i cells of row j, or of cell i itself, is among the pushes of the first i+1 cells |
| `Flip2dSpec.CellInRowPrefix` | 2d/include/FLIP.cpp:376-397 | a triplet pushed for cell (i,j) is among the pushes of every longer prefix of row j |
| `Flip2dSpec.RowsGrow` | 2d/include/FLIP.cpp:374-398 | a triplet of the first j rows, or of row j, is among the triplets of the first j+1 rows |
| `Flip2dSpec.RowInRows` | 2d/include/FLIP.cpp:374-398 | a triplet pushed for row j is among the triplets of the first j' rows for every later j' |
| `Flip2dSpec.XNeighboursLinked` | 2d/include/FLIP.cpp:385-389 | two fluid cells r and r+1 side by side in one row get both -1 entries (r,r+1) and (r+1,r) |
| `Flip2dSpec.MatrixLinksExactly` | 2d/include/FLIP.cpp:355-404 | for r != c, a -1 entry (r,c) is in the triplet list exactly when r and c are fluid cells side by side in one row, in either order (both directions) |
| `Flip2dSpec.MatrixTripletsExact` | 2d/include/FLIP.cpp:355-404 | the whole list: indices inside N*M, every -1 entry mirrored, one diagonal per fluid cell and none elsewhere, and the -1 entries exactly the pairs of horizontal fluid neighbours (sound and complete) |
| `Flip2dSpec.OuterRowFitsOnlyTwoByTwo` | 2d/include/FLIP.cpp:306-309 | the outer-boundary write to v row n*(m-1) stays inside the buffer only on the 2 x 2 grid |
| `Flip2dSpec.GuardsLeaveNoFluid` | 2d/include/FLIP.cpp:377-379 | with a diagonal vector of at most n entries, every fluid cell having its entry and no fluid cell in row 0 together leave no fluid cell at all |
| `Flip2dSpec.NoFluidNoMatrix` | 2d/include/FLIP.cpp:374-380 | without fluid cells compute_pressure_matrix pushes no triplet |
| `Flip2dSpec.RowsEmpty` | 2d/include/FLIP.cpp:375-376 | without fluid cells the first j rows push no triplet |
| `Flip2dSpec.RowPrefixEmpty` | 2d/include/FLIP.cpp:376-377 | without fluid cells the first i cells of a row push no triplet |
| `Flip2dSpec.RhsDivergence` | 2d/include/FLIP.cpp:432-457 | the cell's value sums its faces as written, dropping the upper faces on a right or top wall and adding the further face on a left or bottom wall; with no wall it is the negative divergence |
| `Flip2dSpec.PressureStep` | 2d/include/FLIP.cpp:475-488 | equal pressures leave the face unchanged; with a positive factor the velocity drops exactly when the pressure rises across the face, and rises exactly when it falls |
| `Flip2dEngine.ResidualKeptTrans` | 2d/include/FLIP.cpp:195-238 | keeping `value - c*weight` on every face is transitive across successive accumulations |
| `Flip2dEngine.NormalisedUniform` | 2d/include/FLIP.cpp:240-253 | a face whose residual stayed 0 normalises to exactly c |
| `Flip2dEngine.UniformTransfer` | 2d/include/FLIP.cpp:131-172 | particle-to-grid transfer reproduces a uniform velocity c on every face that started at c times its weight and ends with nonzero weight |
| `Flip2dEngine.UStencilFor` | 2d/include/FLIP.cpp:528-541 | grid_to_particle's u rectangle is the UStencil of the particle, a unit rectangle of the grid |
| `Flip2dEngine.VStencilFor` | 2d/include/FLIP.cpp:562-575 | grid_to_particle's v rectangle is the VStencil of the particle, a unit rectangle of the grid |
| `Flip2dEngine.Flip2d.constructor` | 2d/include/FLIP.cpp:3-6 | the engine holds the given particles, grid, density, gravity and kernel coefficient |
| `Flip2dEngine.Flip2d.CellSizesPositive` | 2d/include/Mac2d.h:40 | both cell sizes equal sizex/N (the y size as written) and are positive, and one cell fits in the domain |
| `Flip2dEngine.Flip2d.AdvanceParticles` | 2d/include/FLIP.cpp:602-691 | every particle becomes its Advanced successor: Euler or leapfrog position reset into the domain, velocity and previous position kept |
| `Flip2dEngine.Flip2d.AdvanceOne` | 2d/include/FLIP.cpp:609-688 | one loop pass yields exactly the Advanced particle |
| `Flip2dEngine.Flip2d.ApplyForces` | 2d/include/FLIP.cpp:272-286 | every v face, the top row included, gains dt times gravity; u is untouched |
| `Flip2dEngine.Flip2d.AccumulateU` | 2d/include/FLIP.cpp:195-215 | inside the kernel face (i,j) gains W*vel.x and its weight gains W; outside it nothing changes; no other face changes; weights never drop; `u - vel.x*weight` is kept |
| `Flip2dEngine.Flip2d.AccumulateV` | 2d/include/FLIP.cpp:218-238 | the same for face (i,j) of v and vel.y |
| `Flip2dEngine.Flip2d.AccumulateCell` | 2d/include/FLIP.cpp:150-166 | one i-loop iteration touches only the faces (i,j); weights never drop and both residuals are kept |
| `Flip2dEngine.Flip2d.AccumulateLeftEdge` | 2d/include/FLIP.cpp:151-157 | the u half touches only u(i,j), keeps weights non-decreasing and keeps the u residual |
| `Flip2dEngine.Flip2d.AccumulateLowerEdge` | 2d/include/FLIP.cpp:158-165 | the v half touches only v(i,j), keeps weights non-decreasing and keeps the v residual |
| `Flip2dEngine.Flip2d.AccumulateRow` | 2d/include/FLIP.cpp:149-166 | one row of the block touches only faces near the particle's cell in that row, with weights non-decreasing and residuals kept |
| `Flip2dEngine.Flip2d.AccumulateParticle` | 2d/include/FLIP.cpp:148-167 | one particle touches only the faces of its block, with weights non-decreasing and residuals kept |
| `Flip2dEngine.Flip2d.TransferToGrid` | 2d/include/FLIP.cpp:117-172 | the fluid cells are exactly the non-solid cells holding a particle; u and v are the accumulated sums divided by nonzero weights; faces far from every particle keep value and weight; for a uniform flow the residual is kept, so UniformTransfer applies |
| `Flip2dEngine.Flip2d.OccupiedStep` | 2d/include/FLIP.cpp:131-141 | the occupied set grows by exactly the cell of the next particle |
| `Flip2dEngine.Flip2d.SplatParticles` | 2d/include/FLIP.cpp:131-168 | a cell becomes fluid exactly when it holds a particle and is not solid (or was fluid already); faces far from every particle are untouched; weights never drop; uniform flow keeps the residual |
| `Flip2dEngine.Flip2d.SplatParticle` | 2d/include/FLIP.cpp:132-167 | one particle marks its own cell and changes only faces of its block |
| `Flip2dEngine.Flip2d.MarkFluid` | 2d/include/FLIP.cpp:132-141 | the particle's cell becomes fluid unless it is solid; no other flag changes |
| `Flip2dEngine.Flip2d.NormalizeU` | 2d/include/FLIP.cpp:240-253 | every u slot with nonzero weight is divided by its weight; the others keep their value |
| `Flip2dEngine.Flip2d.NormalizeURow` | 2d/include/FLIP.cpp:242-252 | row j of u is normalised and every other slot is unchanged |
| `Flip2dEngine.Flip2d.NormalizeV` | 2d/include/FLIP.cpp:255-268 | every v slot with nonzero weight is divided by its weight; the others keep their value |
| `Flip2dEngine.Flip2d.NormalizeVRow` | 2d/include/FLIP.cpp:257-267 | row j of v is normalised and every other slot is unchanged |
| `Flip2dEngine.Flip2d.ApplyBoundaryConditions` | 2d/include/FLIP.cpp:290-314 | the faces beside a solid cell and on the outer boundary become 0 and every other face keeps its value; needs the last column and row solid and the top v row inside the buffer |
| `Flip2dEngine.Flip2d.SolidWalls` | 2d/include/FLIP.cpp:295-303 | exactly the faces beside a solid cell become 0 |
| `Flip2dEngine.Flip2d.SolidWallsRow` | 2d/include/FLIP.cpp:296-302 | row j's wall faces become 0 and nothing else changes |
| `Flip2dEngine.Flip2d.WallFaceU` | 2d/include/FLIP.cpp:297-299 | u(i+1,j) becomes 0 exactly when cell (i,j) or (i+1,j) is solid; no other face changes |
| `Flip2dEngine.Flip2d.WallFaceV` | 2d/include/FLIP.cpp:300-302 | v(i,j+1) becomes 0 exactly when cell (i,j) or (i,j+1) is solid; no other face changes |
| `Flip2dEngine.Flip2d.OuterBoundaries` | 2d/include/FLIP.cpp:306-313 | v rows 0 and N*(M-1) and u columns 0 and N-1 become 0; everything else is kept |
| `Flip2dEngine.Flip2d.OuterRowsV` | 2d/include/FLIP.cpp:306-309 | exactly v rows 0 and N*(M-1) become 0 |
| `Flip2dEngine.Flip2d.OuterColumnsU` | 2d/include/FLIP.cpp:310-313 | exactly u columns 0 and N-1 become 0 |
| `Flip2dEngine.Flip2d.ComputePressureMatrix` | 2d/include/FLIP.cpp:355-404 | the triplet list is MatrixTriplets of the fluid flags: indices inside N*M, every -1 entry mirrored, exactly one diagonal per fluid cell and none for any other, and a -1 entry (r,c), r != c, exactly when r and c are horizontal fluid neighbours in one row |
| `Flip2dEngine.Flip2d.PressureMatrixRow` | 2d/include/FLIP.cpp:375-397 | the pushes of row j are that row's triplets in loop order |
| `Flip2dEngine.Flip2d.CellPushes` | 2d/include/FLIP.cpp:377-396 | the pushes of one cell are its diagonal when fluid and the -1 pair with a fluid right neighbour |
| `Flip2dEngine.Flip2d.ComputePressureRhs` | 2d/include/FLIP.cpp:406-463 | d has N*M entries, entry i + N*j being the scaled RhsDivergence of cell (i,j) for a fluid cell and 0 otherwise |
| `Flip2dEngine.Flip2d.CellRhs` | 2d/include/FLIP.cpp:431-458 | the d_ entry of one cell: 0 for a cell that is not fluid, else density*dx/dt times RhsDivergence with the four wall tests as written; ComputePressureRhs's ensures puts it at index i + N*j, and RhsDivergence proves what it sums |
| `Flip2dEngine.Flip2d.RhsRow` | 2d/include/FLIP.cpp:431-458 | row j's entries are set and every other entry is kept |
| `Flip2dEngine.Flip2d.ApplyPressureGradients` | 2d/include/FLIP.cpp:465-491 | every face becomes its PressureStep update, faces on the lower wall being left alone |
| `Flip2dEngine.Flip2d.UAfterGradient` | 2d/include/FLIP.cpp:475-481 | u face (a,b) after the gradient step: for 1 <= a < N the PressureStep across cells (a-1,b) and (a,b), else kept; PressureStep proves the face slows exactly when pressure rises across it |
| `Flip2dEngine.Flip2d.VAfterGradient` | 2d/include/FLIP.cpp:482-488 | v face (a,b) after the gradient step: for 1 <= b < M the PressureStep across cells (a,b-1) and (a,b), else kept |
| `Flip2dEngine.Flip2d.GradientRow` | 2d/include/FLIP.cpp:474-489 | row j's faces are updated and every other face is kept |
| `Flip2dEngine.Flip2d.GradientFaceU` | 2d/include/FLIP.cpp:475-481 | u(i,j) drops by the pressure difference across it times dt/(dx*density); nothing else changes |
| `Flip2dEngine.Flip2d.GradientFaceV` | 2d/include/FLIP.cpp:482-488 | v(i,j) drops by the pressure difference across it times dt/(dx*density); nothing else changes |
| `Flip2dEngine.Flip2d.G2PKeepsUniformFlow` | 2d/include/FLIP.cpp:496-599 | a particle moving with a flow uniform on its stencils, before and after the grid update, keeps its x and y velocity; z is damped by 1 - alpha (as written) |
| `Flip2dEngine.Flip2d.G2PUnchangedGrid` | 2d/include/FLIP.cpp:496-599 | on an unchanged grid the update is the pure PIC step toward the interpolated velocity by alpha |
| `Flip2dEngine.Flip2d.GridToParticle` | 2d/include/FLIP.cpp:496-599 | every particle's velocity becomes its blended grid velocity and nothing else changes |
| `Flip2dEngine.Flip2d.G2POne` | 2d/include/FLIP.cpp:505-597 | one loop pass computes exactly the particle's blended velocity |
| `Flip2dEngine.Flip2d.DoPressures` | 2d/include/FLIP.cpp:318-353 | with the solver's solution p: the matrix and right-hand side of the current field, the pressures equal p, and every face takes its gradient update; under its guards the matrix is empty and every right-hand side entry is 0 |
| `Flip2dEngine.Flip2d.NoFluidUnderGuards` | 2d/include/FLIP.cpp:318-326 | on a grid whose A_diag_ has the constructor's min(N, M) entries and that meets the A_diag_ guard and the row-0 guard of the pressure phase, no cell is fluid, MatrixTriplets is empty and every CellRhs is 0 |
| `Flip2dEngine.Flip2d.ComputeVelocityField` | 2d/include/FLIP.cpp:94-173 | the velocities are cleared (but the last u column and v row), and the call stops at set_weights_to_zero's failing assertion with row 0 of the weights zero |
| `Flip2dEngine.Flip2d.StepFlip` | 2d/include/FLIP.cpp:11-52 | ceil(dt/dt_new) substeps; with at least one, the first advances every particle and then stops in compute_velocity_field; with none, nothing changes |
| `Flip2dEngine.Flip2d.Substep` | 2d/include/FLIP.cpp:29-37 | one pass advances every particle, clears the velocities and stops at the weights' assertion |
| `Flip2dEngine.Flip2d.FinishSubstep` | 2d/include/FLIP.cpp:38-50 | the rest of a pass: u*, v* are the old field; the system is assembled; pressures are p; every face is forced, cleared on the boundary and gradient-updated; every particle takes its blended velocity; the matrix is empty and d is 0, as its guards leave no fluid cell |
| `Flip2dEngine.Flip2d.GridUpdate` | 2d/include/FLIP.cpp:40-47 | forces, boundaries and the pressure phase in sequence, each face's final value given; the matrix is empty and d is 0 |
| `Flip2dEngine.Flip2d.ForcesAndBoundaries` | 2d/include/FLIP.cpp:40-44 | gravity on every v face, then the boundary faces set to 0 |
| `Mac3dGrid.Mac3d.SetVelocitiesToZero` | 3d/include/FLIP.cpp:124 | every face of all three velocity fields becomes 0 |
| `Mac3dGrid.Mac3d.SetWeightsToZero` | 3d/include/FLIP.cpp:125 | every weight of all three face families becomes 0 |
| `Mac3dGrid.Mac3d.ResetFluid` | 3d/include/FLIP.cpp:157 | afterwards no cell is fluid |
| `Mac3dGrid.Mac3d.SetFluid` | 3d/include/FLIP.cpp:171 | exactly cell (i,j,k) becomes fluid; every other cell keeps its flag |
| `Mac3dGrid.Mac3d.SetUVWStar` | 3d/include/FLIP.cpp:31 | each star field becomes a copy of its velocity field |
| `Mac3dGrid.Mac3d.SetPressure` | 3d/include/FLIP.cpp:621 | cell (i,j,k) takes entry i + j*N + k*N*M of the solver's vector |
| `Extrapolation3d.CountStep` | 3d/include/FLIP.cpp:387-424 | one loop step adds to a face's count and sum exactly the value of the current face when that face is a visited axis neighbour |
| `Extrapolation3d.RowWrap` | 3d/include/FLIP.cpp:388-389 | the end of a row is the start of the next row |
| `Extrapolation3d.PlaneWrap` | 3d/include/FLIP.cpp:387-388 | the end of a plane is the start of the next plane |
| `Extrapolation3d.RunningMean` | 3d/include/FLIP.cpp:392-394 | `(old*count + x)/(count+1)` turns the mean of n values into the mean of n+1 |
| `Extrapolation3d.NoCountNoSum` | 3d/include/FLIP.cpp:386 | a face that received nothing has a sum of 0 |
| `Extrapolation3d.Receive` | 3d/include/FLIP.cpp:391-395 | the neighbour's counter rises by one and its value becomes the running mean including the current face; nothing else changes |
| `Extrapolation3d.ExtrapolateFace` | 3d/include/FLIP.cpp:390-421 | a visited face gives its value to every unvisited axis neighbour inside the buffer; an unvisited face changes nothing |
| `Extrapolation3d.ExtrapolateLower` | 3d/include/FLIP.cpp:391-405 | the unvisited neighbours toward i-1, j-1, k-1 that exist receive the value |
| `Extrapolation3d.ExtrapolateUpper` | 3d/include/FLIP.cpp:406-420 | the unvisited neighbours toward i+1, j+1, k+1 that exist receive the value (the last index of each axis excluded) |
| `Extrapolation3d.Offer` | 3d/include/FLIP.cpp:391-420 | a neighbour receives the value exactly when its index guard passes and it is not visited itself; no other face changes |
| `Extrapolation3d.ReceivesBySide` | 3d/include/FLIP.cpp:390-421 | the faces a visited face gives its value to are its unvisited lower and upper axis neighbours |
| `Extrapolation3d.FaceStep` | 3d/include/FLIP.cpp:389-421 | the running count and mean of an unvisited face follow the loop from one face to the next |
| `Extrapolation3d.ExtrapolateStep` | 3d/include/FLIP.cpp:389-421 | one iteration keeps the loop invariant: every face processed so far has been offered to its neighbours |
| `Extrapolation3d.UpToRowWrap` | 3d/include/FLIP.cpp:388-389 | the loop invariant carries over from the end of one row to the start of the next |
| `Extrapolation3d.UpToPlaneWrap` | 3d/include/FLIP.cpp:387-388 | the loop invariant carries over from the end of one plane to the start of the next |
| `Extrapolation3d.ExtrapolateRow` | 3d/include/FLIP.cpp:389-422 | the i-loop of row j takes the invariant from the row's start to the next row's start |
| `Extrapolation3d.ExtrapolatePlane` | 3d/include/FLIP.cpp:388-423 | the j/i loops of plane k take the invariant from the plane's start to the next plane's start |
| `Extrapolation3d.AllProcessed` | 3d/include/FLIP.cpp:387-424 | after the loops, the processed faces are exactly the visited ones |
| `Extrapolation3d.NeighbourMeanBounded` | 3d/include/FLIP.cpp:380-427 | the value extrapolated into a face lies between the least and the greatest value of its visited neighbours (a maximum principle) |
| `Extrapolation3d.TermFacts` | 3d/include/FLIP.cpp:390-420 | each neighbour's term contributes 0 when not visited and a value within the bounds when visited |
| `Extrapolation3d.SumBounded` | 3d/include/FLIP.cpp:390-420 | six flagged terms, each within bounds when flagged, sum to between n*lo and n*hi |
| `Extrapolation3d.MeanBounded` | 3d/include/FLIP.cpp:394 | a sum between n*lo and n*hi divided by n lies in [lo, hi] |
| `Extrapolation3d.UpToStart` | 3d/include/FLIP.cpp:385-386 | zeroed counters and the original buffer satisfy the loop invariant before the first face |
| `Extrapolation3d.ExtrapolatePlanes` | 3d/include/FLIP.cpp:387-424 | the k-loop takes the invariant from the first face to the end of the buffer |
| `Extrapolation3d.ExtrapolationFinished` | 3d/include/FLIP.cpp:387-424 | at the end of the loops every visited face holds its old value and every other face the mean of its visited neighbours |
| `Extrapolation3d.Extrapolate` | 3d/include/FLIP.cpp:380-526 | every visited face keeps its value; every unvisited face holds the mean of its visited axis neighbours, or its old value when it has none |
| `Flip3dSpec.LargestComponent` | 3d/include/FLIP.cpp:59-73 | the kept component is at least as large in magnitude as that of every particle, and is 0 or some particle's component |
| `Flip3dSpec.AxisPass` | 3d/include/FLIP.cpp:75-106 | one axis pass of compute_timestep: a zero maximum resets the step to dt, else min(prev, abs(cs/max)) capped at dt; AxisPassPositive keeps it positive and TimestepCfl bounds it |
| `Flip3dSpec.CflTimestep` | 3d/include/FLIP.cpp:55-109 | compute_timestep as the x, y, z passes in source order; TimestepBounds, TimestepCfl, TimestepResetByIdleAxis and TimestepAtRest prove its bounds, its CFL limits and its resets |
| `Flip3dSpec.TimestepBounds` | 3d/include/FLIP.cpp:75-108 | the new step never exceeds dt, and is positive for a positive dt and positive cell sizes |
| `Flip3dSpec.AxisPassPositive` | 3d/include/FLIP.cpp:84-94 | one axis pass keeps the step positive |
| `Flip3dSpec.TimestepCfl` | 3d/include/FLIP.cpp:75-108 | the step respects the CFL limit abs(cs/max) of every axis with a nonzero maximum that no later axis with zero maximum resets to dt (the order as written) |
| `Flip3dSpec.TimestepResetByIdleAxis` | 3d/include/FLIP.cpp:75-106 | a zero maximum on an axis resets the step to dt there, discarding the limits of the axes before it (as written): zero z gives dt, zero y gives the z pass from dt, zero x gives the y and z passes from dt |
| `Flip3dSpec.TimestepAtRest` | 3d/include/FLIP.cpp:55-109 | with all particles at rest the step is dt |
| `Flip3dSpec.SubstepsCover` | 3d/include/FLIP.cpp:46-52 | ceil(dt/dt_new) substeps of dt_new cover dt, at least one of them, and one fewer would not |
| `Flip3dSpec.CheckThreshold3` | 3d/include/FLIP.cpp:231-240 | the kernel test accepts exactly the points within distance h of the grid point, the boundary included |
| `Flip3dSpec.Weight3` | 3d/include/FLIP.cpp:242-249 | compute_weight of the 3D engine, the poly6 kernel coeff*(h^2 - r^2)^3; AcceptedWeightNonnegative, RadiusAcceptedWithZeroWeight and WeightDecreasesWithDistance prove its sign, its value at the radius and its monotonicity |
| `Flip3dSpec.AcceptedWeightNonnegative` | 3d/include/FLIP.cpp:242-249 | every weight the poly6 kernel gives an accepted point is nonnegative |
| `Flip3dSpec.RadiusAcceptedWithZeroWeight` | 3d/include/FLIP.cpp:231-249 | a point at exactly distance h is accepted and weighs 0 |
| `Flip3dSpec.WeightDecreasesWithDistance` | 3d/include/FLIP.cpp:242-249 | among accepted points a nearer one never weighs less |
| `Flip3dSpec.SumsExtend` | 3d/include/FLIP.cpp:162-214 | adding the next particle extends the weight sum and the momentum sum of a face by its share |
| `Flip3dSpec.KernelSumNonnegative` | 3d/include/FLIP.cpp:252-321 | a face's accumulated weight is nonnegative |
| `Flip3dSpec.KernelSumPositive` | 3d/include/FLIP.cpp:252-321 | one particle with positive weight on a face makes the face's weight positive |
| `Flip3dSpec.UnreachedFaceEmpty` | 3d/include/FLIP.cpp:123-214 | a face no particle reaches gets neither weight nor velocity |
| `Flip3dSpec.UniformMomentum` | 3d/include/FLIP.cpp:252-321 | when every particle the kernel reaches (nonzero kernel) has the component vc, the accumulated velocity is vc times the weight; unreached particles may move freely |
| `Flip3dSpec.TransferKeepsUniformFlow` | 3d/include/FLIP.cpp:162-219 | particle-to-grid transfer reproduces a uniform flow: when every particle the kernel reaches has the component vc, a face with nonzero weight gets exactly vc |
| `Flip3dSpec.SingleReachGetsItsComponent` | 3d/include/FLIP.cpp:162-219 | a face whose kernel reaches exactly one particle, with positive weight, gets that particle's velocity component |
| `Flip3dSpec.FlipShare` | 3d/include/FLIP.cpp:834-840 | the FLIP share is 1 - alpha inside the grid, and 0 on the edge layer once alpha >= 1/2 |
| `Flip3dSpec.Blend3` | 3d/include/FLIP.cpp:833-840 | one component of the 3D update old*f + new - star*f with the FLIP share f; Blend3IsFlipPicMix, Blend3EdgeIsPic, Blend3InteriorFlip and Blend3Steady prove it is the (1-f) PIC / f FLIP mix |
| `Flip3dSpec.Blend3IsFlipPicMix` | 3d/include/FLIP.cpp:837-839 | the update is (1 - f) times PIC plus f times FLIP, with f the FLIP share |
| `Flip3dSpec.Blend3EdgeIsPic` | 3d/include/FLIP.cpp:834-837 | on the edge layer alpha >= 1/2 makes the update pure PIC |
| `Flip3dSpec.Blend3InteriorFlip` | 3d/include/FLIP.cpp:839 | inside the grid alpha = 0 makes the update pure FLIP: the old velocity plus the grid's change |
| `Flip3dSpec.Blend3Steady` | 3d/include/FLIP.cpp:837-839 | a particle moving with the velocity of an unchanged grid keeps it |
| `Flip3dSpec.ClampCoord` | 3d/include/FLIP.cpp:886-904 | a coordinate inside the window is kept; below it becomes 0 and above it becomes size - cs; the result is always inside the window |
| `Flip3dSpec.PullBack` | 3d/include/FLIP.cpp:913-927 | the pull-back on one axis: a quarter cell off the previous cell's corner toward the cell the particle came from, and the coordinate kept when the index did not change; PullBackBetween proves it lies strictly between the two corners |
| `Flip3dSpec.PullBackBetween` | 3d/include/FLIP.cpp:913-927 | a pulled-back coordinate lies strictly between the corners of the new and the current cell, and is kept when the indices agree |
| `Flip3dSpec.RhsDivergence3` | 3d/include/FLIP.cpp:696-736 | the cell's value as written: a wall on a lower side doubles that face, a wall on an upper side cancels it |
| `Flip3dSpec.RhsInterior` | 3d/include/FLIP.cpp:698-700 | away from walls the value is the negative discrete divergence of the cell |
| `Flip3dSpec.RhsZeroWallFaces` | 3d/include/FLIP.cpp:704-734 | when every wall face carries zero velocity the wall corrections vanish and the value is the negative divergence |
| `Flip3dSpec.MirrorClosedConcat` | 3d/include/FLIP.cpp:639-669 | concatenating two mirror-closed triplet lists keeps the list mirror closed |
| `Flip3dSpec.WellFormedConcat` | 3d/include/FLIP.cpp:639-669 | concatenating two well-formed triplet lists keeps the list well formed |
| `Flip3dSpec.Flat3Steps` | 3d/include/FLIP.cpp:650-664 | the upper neighbours along x, y and z sit at cellidx + 1, + nx and + nx*ny |
| `Flip3dSpec.PairFacts` | 3d/include/FLIP.cpp:649-664 | a pair between a fluid cell and its fluid upper neighbour links two distinct adjacent cells and is well formed and mirror closed |
| `Flip3dSpec.UpperPairFacts` | 3d/include/FLIP.cpp:649-664 | the pushes toward one upper neighbour are well formed and mirror closed |
| `Flip3dSpec.CellTriplets3Facts` | 3d/include/FLIP.cpp:643-666 | one cell's pushes are well formed and mirror closed |
| `Flip3dSpec.RowPrefix3Facts` | 3d/include/FLIP.cpp:641-667 | the pushes of a row prefix are well formed and mirror closed |
| `Flip3dSpec.PlanePrefix3Facts` | 3d/include/FLIP.cpp:640-668 | the pushes of the first rows of a plane are well formed and mirror closed |
| `Flip3dSpec.PlaneStep3` | 3d/include/FLIP.cpp:640-668 | appending one row keeps the plane prefix well formed and mirror closed |
| `Flip3dSpec.Planes3Facts` | 3d/include/FLIP.cpp:639-669 | the pushes of the first planes are well formed and mirror closed |
| `Flip3dSpec.Planes3Step` | 3d/include/FLIP.cpp:639-669 | appending one plane keeps the triplet list well formed and mirror closed |
| `Flip3dSpec.PairDiagCount` | 3d/include/FLIP.cpp:650-664 | a pair between two different cells holds no diagonal triplet |
| `Flip3dSpec.UpperPairDiagCount` | 3d/include/FLIP.cpp:649-664 | the pushes toward an upper neighbour hold no diagonal triplet |
| `Flip3dSpec.CellDiagCount3` | 3d/include/FLIP.cpp:643-644 | each cell contributes exactly one diagonal triplet, its own A_diag entry, whether fluid or not |
| `Flip3dSpec.RowPrefix3DiagCount` | 3d/include/FLIP.cpp:641-667 | a row prefix holds exactly one diagonal per cell it covers |
| `Flip3dSpec.PlanePrefix3DiagCount` | 3d/include/FLIP.cpp:640-668 | the first rows of a plane hold exactly one diagonal per cell they cover |
| `Flip3dSpec.Planes3DiagCount` | 3d/include/FLIP.cpp:639-669 | the first planes hold exactly one diagonal per cell they cover |
| `Flip3dSpec.MatrixShape3` | 3d/include/FLIP.cpp:628-675 | the pressure matrix's triplets stay inside nx*ny*nz, every -1 entry is mirrored, off-diagonals link only axis-adjacent fluid cells, and every cell has exactly one diagonal |
| `Flip3dSpec.RowPrefixGrows3` | 3d/include/FLIP.cpp:641-667 | a triplet among the pushes of the first i cells of row (j,k), or of cell i itself, is among the pushes of the first i+1 cells |
| `Flip3dSpec.CellInRowPrefix3` | 3d/include/FLIP.cpp:641-667 | a triplet pushed for cell (i,j,k) is among the pushes of every longer prefix of its row |
| `Flip3dSpec.PlanePrefixGrows3` | 3d/include/FLIP.cpp:640-668 | a triplet of the first j rows of plane k, or of row j, is among those of the first j+1 rows |
| `Flip3dSpec.RowInPlanePrefix3` | 3d/include/FLIP.cpp:640-668 | a triplet pushed for row j of plane k is among the pushes of the first j' rows for every later j' |
| `Flip3dSpec.PlanesGrow3` | 3d/include/FLIP.cpp:639-669 | a triplet of the first k planes, or of plane k, is among those of the first k+1 planes |
| `Flip3dSpec.PlaneInPlanes3` | 3d/include/FLIP.cpp:639-669 | a triplet pushed for plane k is among the pushes of the first k' planes for every later k' |
| `Flip3dSpec.CellInMatrix3` | 3d/include/FLIP.cpp:639-669 | every triplet pushed for a cell is in the whole list |
| `Flip3dSpec.FluidNeighboursLinked3` | 3d/include/FLIP.cpp:646-664 | two fluid cells adjacent along x, y or z get both -1 entries between their flat indices |
| `Flip3dSpec.LinkedAtInMatrix3` | 3d/include/FLIP.cpp:646-664 | a fluid cell and its fluid upper neighbour along some axis have both -1 entries in the list |
| `Flip3dSpec.MatrixLinksExactly3` | 3d/include/FLIP.cpp:628-675 | for r != c, a -1 entry (r,c) is in the list exactly when r and c are fluid cells adjacent along some axis, in either order (both directions) |
| `Flip3dSpec.MatrixTriplets3Exact` | 3d/include/FLIP.cpp:628-675 | the whole list: indices inside nx*ny*nz, every -1 entry mirrored, exactly one diagonal per cell, and the -1 entries exactly the pairs of axis-adjacent fluid cells (sound and complete) |
| `Flip3dEngine.PulledBackBetween` | 3d/include/FLIP.cpp:913-923 | on x and y the pulled-back position lies strictly between the corners of the new and the current cell whenever their indices differ |
| `Flip3dEngine.Blend3VecFacts` | 3d/include/FLIP.cpp:833-840 | per axis the blend is the (1-f) PIC plus f FLIP mix; on the edge layer with alpha >= 1/2 it is pure PIC; a particle moving with an unchanged grid keeps its velocity |
| `Flip3dEngine.Flip3d.constructor` | 3d/include/FLIP.cpp:3-8 | the engine holds the given particles, grid, density, gravity and alpha, with an empty system |
| `Flip3dEngine.Flip3d.ComputeTimestep` | 3d/include/FLIP.cpp:55-109 | the result is the CFL step of the particles' largest velocity components, never above dt and positive for a positive dt |
| `Flip3dEngine.Flip3d.LargestComponents` | 3d/include/FLIP.cpp:59-73 | the loop finds the largest-magnitude component along each axis, as LargestComponent defines it |
| `Flip3dEngine.Flip3d.ReachPositive` | 3d/include/FLIP.cpp:140-143 | the kernel radius reaches at least one cell along every axis |
| `Flip3dEngine.Flip3d.KernelOutsideBlock` | 3d/include/FLIP.cpp:180-182 | a face outside a particle's block gets neither weight nor momentum from it |
| `Flip3dEngine.Flip3d.KernelInBlock` | 3d/include/FLIP.cpp:180-213 | inside the block a face gets compute_weight's value when its grid point passes the threshold test, and 0 otherwise |
| `Flip3dEngine.Flip3d.WeightNonnegative` | 3d/include/FLIP.cpp:162-214 | every face's accumulated weight is nonnegative |
| `Flip3dEngine.Flip3d.WeightPositive` | 3d/include/FLIP.cpp:162-214 | a face strictly within h of a particle whose block holds it gets a positive weight, so normalisation marks it visited |
| `Flip3dEngine.Flip3d.WeightNonnegativeEach` | 3d/include/FLIP.cpp:242-249 | each particle's kernel on a face is nonnegative |
| `Flip3dEngine.Flip3d.UnreachedFace` | 3d/include/FLIP.cpp:162-214 | a face outside every particle's block gets neither weight nor velocity |
| `Flip3dEngine.Flip3d.ComputeVelocityField` | 3d/include/FLIP.cpp:112-229 | a cell is fluid exactly when it holds a particle and is not solid; every face's weight is its kernel sum; it is visited exactly when that sum is nonzero; it holds the weighted mean of the particles' velocities if visited and the mean of its visited neighbours otherwise |
| `Flip3dEngine.Flip3d.ParticleToGrid` | 3d/include/FLIP.cpp:123-219 | after splatting and normalisation every face holds its weighted mean, its kernel sum as weight, and its visited flag set exactly when the sum is nonzero |
| `Flip3dEngine.Flip3d.Prepare` | 3d/include/FLIP.cpp:123-157 | fields and weights zeroed, no fluid cell, fresh cleared visited flags, and h = 2*dx with its reach in cells |
| `Flip3dEngine.Flip3d.NormalizeAll` | 3d/include/FLIP.cpp:217-219 | the three families are normalised from their accumulated sums |
| `Flip3dEngine.Flip3d.ClearGrid` | 3d/include/FLIP.cpp:124-157 | every velocity and weight is 0 and no cell is fluid |
| `Flip3dEngine.Flip3d.NewFlags` | 3d/include/FLIP.cpp:149-154 | three fresh, distinct visited-flag buffers, all cleared |
| `Flip3dEngine.Flip3d.NormalizeFamily` | 3d/include/FLIP.cpp:323-378 | one family goes from accumulated sums to weighted means with its visited flags |
| `Flip3dEngine.Flip3d.ExtrapolateFamily` | 3d/include/FLIP.cpp:380-526 | one family's unvisited faces take the mean of their visited neighbours; the normalised field is returned to name it |
| `Flip3dEngine.Flip3d.SplatParticles` | 3d/include/FLIP.cpp:162-214 | from a cleared grid: the fluid cells are those holding a particle and not solid, and every face holds the particles' momentum and kernel sums |
| `Flip3dEngine.Flip3d.OccupiedStep` | 3d/include/FLIP.cpp:166-172 | the occupied set grows by exactly the next particle's cell |
| `Flip3dEngine.Flip3d.MarkFluid` | 3d/include/FLIP.cpp:170-172 | the cell becomes fluid unless solid; no other flag changes |
| `Flip3dEngine.Flip3d.SplatParticle` | 3d/include/FLIP.cpp:180-213 | every face gains the particle's momentum and kernel, which are 0 outside its block |
| `Flip3dEngine.Flip3d.SplatPlane` | 3d/include/FLIP.cpp:181-212 | the faces of plane k gain the particle's share; the others are unchanged |
| `Flip3dEngine.Flip3d.SplatRow` | 3d/include/FLIP.cpp:182-211 | the faces of row j of plane k gain the particle's share; the others are unchanged |
| `Flip3dEngine.Flip3d.SplatCell` | 3d/include/FLIP.cpp:183-210 | faces (i,j,k) of the three families gain the particle's share when inside the grid; nothing else changes |
| `Flip3dEngine.Flip3d.SplatFace` | 3d/include/FLIP.cpp:184-209 | face (i,j,k) of one family is accumulated at its grid point when it lies in the grid |
| `Flip3dEngine.Flip3d.AccumulateFace` | 3d/include/FLIP.cpp:252-321 | within h the face gains W*vel and its weight gains W; otherwise it is unchanged; no other face changes |
| `Flip3dEngine.Flip3d.NormalizeAccumulated` | 3d/include/FLIP.cpp:323-378 | every face with nonzero weight is divided by it and flagged visited; the others keep value and flag |
| `Flip3dEngine.Flip3d.NormalizePlane` | 3d/include/FLIP.cpp:327-340 | plane k is normalised and the rest is unchanged |
| `Flip3dEngine.Flip3d.NormalizeRow` | 3d/include/FLIP.cpp:328-339 | row j of plane k is normalised and the rest is unchanged |
| `Flip3dEngine.Flip3d.ApplyForces` | 3d/include/FLIP.cpp:528-545 | every v face, the top layer included, loses dt times gravity; u and w are untouched |
| `Flip3dEngine.Flip3d.ForcesPlane` | 3d/include/FLIP.cpp:538-544 | plane k's v faces are forced and the rest is unchanged |
| `Flip3dEngine.Flip3d.ForcesRow` | 3d/include/FLIP.cpp:539-543 | row j of plane k is forced and the rest is unchanged |
| `Flip3dEngine.Flip3d.ApplyBoundaryConditions` | 3d/include/FLIP.cpp:549-594 | exactly the faces beside a solid cell or on the outer boundary become 0, every other face keeps its velocity, and every wall face is then 0 |
| `Flip3dEngine.Flip3d.ZeroedFaces` | 3d/include/FLIP.cpp:549-594 | a face is zeroed exactly when it borders a solid cell or lies on the outer boundary, whatever is_solid answers beyond the grid |
| `Flip3dEngine.Flip3d.SolidWalls` | 3d/include/FLIP.cpp:555-567 | exactly the upper faces of the cells that are solid or border a solid cell become 0 |
| `Flip3dEngine.Flip3d.SolidWallPlane` | 3d/include/FLIP.cpp:556-566 | plane k's wall faces become 0 and nothing else changes |
| `Flip3dEngine.Flip3d.SolidWallRow` | 3d/include/FLIP.cpp:557-565 | row j of plane k's wall faces become 0 and nothing else changes |
| `Flip3dEngine.Flip3d.SolidWallCell` | 3d/include/FLIP.cpp:558-564 | the cell's upper face along each axis becomes 0 when the cell or that neighbour is solid |
| `Flip3dEngine.Flip3d.SolidWallFace` | 3d/include/FLIP.cpp:559-564 | one upper face becomes 0 exactly when the cell or its neighbour is solid |
| `Flip3dEngine.Flip3d.OuterSides` | 3d/include/FLIP.cpp:570-593 | both boundary layers of one family become 0 and nothing else changes |
| `Flip3dEngine.Flip3d.OuterRow` | 3d/include/FLIP.cpp:571-576 | one row of a family's two boundary layers becomes 0 |
| `Flip3dEngine.Flip3d.MatrixInputsOf` | 3d/include/FLIP.cpp:643 | a valid grid supplies flags for every cell and one diagonal triplet per cell |
| `Flip3dEngine.Flip3d.ComputePressureMatrix` | 3d/include/FLIP.cpp:628-675 | the triplets in loop order (MatrixTriplets3): indices in range, every cell's diagonal exactly once, every -1 entry mirrored, and a -1 entry (r,c), r != c, exactly when r and c are axis-adjacent fluid cells |
| `Flip3dEngine.MatrixPlanes` | 3d/include/FLIP.cpp:639-669 | the plane loop pushes the whole triplet list |
| `Flip3dEngine.MatrixPlaneStep` | 3d/include/FLIP.cpp:639-669 | one pass of the plane loop appends plane k and moves the cell index to the start of plane k+1 |
| `Flip3dEngine.MatrixPlane` | 3d/include/FLIP.cpp:640-668 | plane k pushes its cells' triplets in order |
| `Flip3dEngine.MatrixRowStep` | 3d/include/FLIP.cpp:640-668 | one pass of the row loop appends row j and moves the cell index to the start of row j+1 |
| `Flip3dEngine.MatrixRow` | 3d/include/FLIP.cpp:641-667 | row j of plane k pushes its cells' triplets in order |
| `Flip3dEngine.MatrixCell` | 3d/include/FLIP.cpp:643-666 | one cell pushes its A_diag entry, then for a fluid cell the pairs toward its fluid upper neighbours |
| `Flip3dEngine.Flip3d.WallSidesZero` | 3d/include/FLIP.cpp:704-734 | after the boundary conditions, both faces of every wall side read in the right-hand side are 0 |
| `Flip3dEngine.Flip3d.RhsAfterBoundaries` | 3d/include/FLIP.cpp:696-734 | after the boundary conditions the right-hand side of a fluid cell is the negative divergence of its faces |
| `Flip3dEngine.Flip3d.CellRhs` | 3d/include/FLIP.cpp:696-739 | the d_ entry of one cell: density*dx/dt times RhsDivergence3 of its six faces and wall tests for a fluid cell, 0 otherwise; ComputePressureRhs puts it at the flat index, and RhsAfterBoundaries proves it is the negative divergence once the boundaries are applied |
| `Flip3dEngine.Flip3d.ComputePressureRhs` | 3d/include/FLIP.cpp:677-743 | d holds one entry per cell at its flat index: the scaled divergence for a fluid cell and 0 otherwise |
| `Flip3dEngine.Flip3d.RhsPlane` | 3d/include/FLIP.cpp:694-741 | plane k's entries are appended in flat order and the earlier entries are kept |
| `Flip3dEngine.Flip3d.RhsRow` | 3d/include/FLIP.cpp:695-740 | row j's entries are appended and the earlier entries are kept |
| `Flip3dEngine.Flip3d.RhsCell` | 3d/include/FLIP.cpp:696-739 | the value of one cell is its right-hand side entry |
| `Flip3dEngine.Flip3d.PressureApart` | 3d/include/FLIP.cpp:745-779 | the pressure buffer is none of the velocity buffers, so the gradient update reads unchanged pressures |
| `Flip3dEngine.Flip3d.AfterGradient` | 3d/include/FLIP.cpp:757-777 | the lower face of a cell along ax after apply_pressure_gradients: off the lower boundary the PressureStep across it, on it the old value; ApplyPressureGradients's ensures puts it on every such face |
| `Flip3dEngine.Flip3d.ApplyPressureGradients` | 3d/include/FLIP.cpp:745-779 | every face that is the lower face of a cell drops by the pressure difference times dt/(dx*density); faces on the upper boundary and on the lower walls keep their values |
| `Flip3dEngine.Flip3d.GradientPlane` | 3d/include/FLIP.cpp:755-779 | plane k's faces are updated and the rest is unchanged |
| `Flip3dEngine.Flip3d.GradientRow` | 3d/include/FLIP.cpp:756-778 | row j of plane k is updated and the rest is unchanged |
| `Flip3dEngine.Flip3d.GradientCell` | 3d/include/FLIP.cpp:757-777 | one cell's lower u, v and w faces are updated, and nothing else |
| `Flip3dEngine.Flip3d.GradientFace` | 3d/include/FLIP.cpp:757-763 | one lower face is updated unless it lies on the lower boundary |
| `Flip3dEngine.Flip3d.AssembleSystem` | 3d/include/FLIP.cpp:602-605 | the matrix and the right-hand side of the current field |
| `Flip3dEngine.Flip3d.DoPressures` | 3d/include/FLIP.cpp:598-626 | with the solver's solution p: the system of the current field, the pressures equal p cell by cell, and every face takes its gradient update |
| `Flip3dEngine.Flip3d.SnapshotAgrees` | 3d/include/FLIP.cpp:820-829 | the snapshot's interpolation and solid test agree with the grid's |
| `Flip3dEngine.Flip3d.GridToParticle` | 3d/include/FLIP.cpp:786-844 | every particle gets its blended velocity and keeps its position |
| `Flip3dEngine.Flip3d.G2POne` | 3d/include/FLIP.cpp:797-842 | one loop pass computes exactly the blended velocity |
| `Flip3dEngine.Flip3d.AdvancedParticle` | 3d/include/FLIP.cpp:847-932 | one particle after advance_particles: kept when the Euler midpoint leaves the grid, else the clamped RK2 estimate, pulled back on x and y when the probed cell is solid; AdvancedParticleKeeps, AdvancedParticleClamped and AdvancedParticlePulledBack state its cases |
| `Flip3dEngine.Flip3d.AdvancedParticleKeeps` | 3d/include/FLIP.cpp:847-932 | velocity and previous position never change; a particle whose midpoint leaves the grid stays put; otherwise its z is the clamped estimate, because the solid test uses the current z |
| `Flip3dEngine.Flip3d.AdvancedParticleClamped` | 3d/include/FLIP.cpp:877-904 | a particle whose new cell is not solid moves to the clamped RK2 estimate, which lies in the grid when a cell fits in it |
| `Flip3dEngine.Flip3d.AdvancedParticlePulledBack` | 3d/include/FLIP.cpp:906-928 | a particle whose new cell is solid lands, on x and y, strictly between the two cells' corners whenever their indices differ |
| `Flip3dEngine.Flip3d.AdvanceParticles` | 3d/include/FLIP.cpp:847-932 | every particle becomes its AdvancedParticle over the current grid |
| `Flip3dEngine.Flip3d.AdvanceAt` | 3d/include/FLIP.cpp:852-930 | one loop pass moves particle n and leaves the others alone |
| `Flip3dEngine.Flip3d.AdvanceOne` | 3d/include/FLIP.cpp:852-928 | the pass either skips the particle, which then equals its AdvancedParticle, or computes its new position |
| `Flip3dEngine.Flip3d.AdvancedTimesKeeps` | 3d/include/FLIP.cpp:48-51 | any number of substeps moves particles but never changes their velocities or previous positions |
| `Flip3dEngine.Flip3d.StepFlip` | 3d/include/FLIP.cpp:13-53 | the grid ends as GridStepped describes for the original particles: cells classified, star fields the extrapolated field, A the fluid-cell matrix, d the right-hand side of the forced and cleared field, every pressure p at the cell's flat index and every face its Projected velocity; dt_new is the CFL step of the blended velocities, with 0 < dt_new <= dt, the substep count is ceil(dt/dt_new), and each particle is its blended self advanced that many times over the final grid |
| `Flip3dEngine.Flip3d.ParticlePhase` | 3d/include/FLIP.cpp:42-51 | dt_new is the CFL step of the blended velocities, with 0 < dt_new <= dt, the substep count is ceil(dt/dt_new), each particle is its blended self advanced that many times, and the grid, the flags and the pressure system are left untouched |
| `Flip3dEngine.Flip3d.BlendAndTimestep` | 3d/include/FLIP.cpp:42-46 | the particles take their blended velocities and dt_new is the CFL step of the blended velocities |
| `Flip3dEngine.Flip3d.GridUpdate` | 3d/include/FLIP.cpp:27-40 | fresh visited flags, and the grid as GridStepped describes: classified cells, extrapolated star fields, the fluid-cell matrix, the right-hand side of the prepared field, pressures p and every face projected |
| `Flip3dEngine.Flip3d.ForcesAndPressures` | 3d/include/FLIP.cpp:33-40 | from a field equal to its star copy: A is the matrix of the fluid cells and the field, d and the pressures are as Solved states (d of the forced and cleared field, pressures p, faces projected); the star fields, weights and flags are unchanged |
| `Flip3dEngine.Flip3d.CopyToStar` | 3d/include/FLIP.cpp:31 | the star fields take the extrapolated velocity field, and every face of the field then equals its star copy |
| `Flip3dEngine.Flip3d.Prepared` | 3d/include/FLIP.cpp:33-37 | the velocity a face holds after apply_forces and apply_boundary_conditions on the star copy: 0 on the faces the boundary conditions clear, star - dt*g on any other v face, star on any other u or w face |
| `Flip3dEngine.Flip3d.PreparedRhs` | 3d/include/FLIP.cpp:677-743 | the right-hand side do_pressures computes from the prepared field: density*dx/dt times its negative divergence for a fluid cell, 0 otherwise |
| `Flip3dEngine.Flip3d.Projected` | 3d/include/FLIP.cpp:745-779 | a face at the end of do_pressures: the prepared value moved by the pressure step when it is the lower face of a cell, the prepared value otherwise |
| `Flip3dEngine.Flip3d.Solved` | 3d/include/FLIP.cpp:598-626 | d has one entry per cell, its PreparedRhs at the flat index; every pressure is p at the flat index; every face holds its Projected value |
| `Flip3dEngine.Flip3d.GridStepped` | 3d/include/FLIP.cpp:27-40 | the grid after steps 1 to 4: cells classified by the particles, star fields extrapolated, A the fluid-cell matrix, and Solved |
| `Flip3dEngine.Flip3d.ForcesAndBoundaries` | 3d/include/FLIP.cpp:33-37 | apply_forces then apply_boundary_conditions on a field equal to its star copy: every face ends at its Prepared value and every cleared face is 0 |
| `Flip3dEngine.Flip3d.PreparedRhsAgrees` | 3d/include/FLIP.cpp:677-743 | once every face holds its Prepared value and the boundary faces are 0, compute_pressure_rhs's entry for a cell is PreparedRhs |
| `Flip3dEngine.Flip3d.PressuresOfPrepared` | 3d/include/FLIP.cpp:598-626 | do_pressures on the prepared field: A is the fluid-cell matrix, and d, the pressures and the faces are as Solved states |
| `Flip3dEngine.Flip3d.Substeps` | 3d/include/FLIP.cpp:48-51 | count passes of advance_particles over an unchanged grid advance each particle count times |

## Left out

- Floating point: scalars are exact reals. Rounding, overflow to infinity and NaN are not modelled, and `std::abs`, `std::ceil`, `std::min` and `int(x)` are exact functions (`Abs`, `Ceil`, `Min`, `Trunc`).
- Integer widths: indices are unbounded. The `unsigned` loop counters of the sources never go negative on the paths modelled, so wrap-around plays no part.
- Console output (`std::cout` in the 2D step) and the destructors' `delete` calls are left out.
- The Eigen conjugate-gradient solve of `do_pressures` is foreign code. Both engines take its answer `p` as a parameter of `DoPressures`, and the contract holds for any vector of the right length. `A_.setFromTriplets` and `A_.resize` are not modelled: the matrix is kept as its triplet list `A`.
- The 3D grid class (`Mac3d`) is not part of this model; only its use by the 3D `FLIP.cpp` is. `Mac3dGrid.Mac3d` is a stand-in, and its constructor has no source row. Some of its parts are left open, and the 3D results hold for every implementation of them:
  - `index_from_coord` is one uninterpreted function per axis, fixed at construction;
  - `get_interp_u/v/w` is an uninterpreted function of the axis, the field's contents and the point;
  - `is_solid` beyond the grid is an uninterpreted function of the indices;
  - `A_diag` is any list with one diagonal triplet per cell.

  The other members get a fixed meaning, read from the 2D `Mac2d.cpp` and from the way the 3D `FLIP.cpp` relies on them. The results do not cover a 3D grid that behaves differently:
  - the buffers are `array3` indexed (i, j, k), one value per face or cell, and every getter and setter reads or writes that one entry;
  - `Mac3dGrid.Mac3d.SetVelocitiesToZero` and `Mac3dGrid.Mac3d.SetWeightsToZero` zero every face of all three families. The 2D `set_velocities_to_zero` (2d/include/Mac2d.cpp:92-99) stops one short and skips the last u column and v row, and the 2D `set_weights_to_zero` (2d/include/Mac2d.cpp:101-108) runs one past the v buffer's width; the 3D model carries neither over;
  - `Mac3dGrid.Mac3d.SetUVWStar` makes each star field an exact copy of its velocity field;
  - `Mac3dGrid.Mac3d.SetPressure` copies entry i + j*N + k*N*M of the solver's vector into cell (i,j,k).
- The flat layouts of `visited_*`, `counter` and the 3D cell order are represented by lemmas, not by address arithmetic: `Flat3Injective` and `Flat3Bounds` show that the layouts are bijections, and the buffers are `array3`. `Flat3` is still used where the source's flat index matters (the matrix, `d_` and `set_pressure`).
- `Flip3dEngine.Flip3d.ComputeVelocityField` returns the visited flags and the normalised fields as ghost outputs, `visU/V/W` and `normU/V/W`, so that its contract can name them. The source frees them at the end of the call.
- compute_pressure_matrix (3D) reads the fluid flags through one snapshot (`Flags`) taken before its loops instead of calling `is_fluid` per cell; the loops change no flag, so the pushes are the same.
- `Flip3dEngine.Flip3d.ComputeVelocityField` requires every particle's cell (by `index_from_coord`) to lie in the grid, because `is_fluid` and `set_fluid` are called on it. Particles outside the grid are not modelled.
- `Flip3dEngine.Flip3d.StepFlip` requires 0 < dt, which the CFL step needs to be positive and the substep count well defined. The source accepts any dt.
- `Flip3dEngine.Flip3d.ComputePressureRhs` requires dt != 0, and `ApplyPressureGradients` requires density != 0, in both engines: the source divides by them.
- The kernel constant 315/(64*pi*h^9) of `compute_weight` is the positive parameter `kernelCoeff` in both engines. h is fixed per engine (2*dx in 3D, dx in 2D), so the constant is too. It is a parameter because pi is not a rational number, and only its sign enters the proofs.
- The 3D `advance_particles` tests the solid cell at the new x and y but the current z, and never pulls z back, as written; `AdvancedParticleKeeps` states this. The step number is unused, as in the source.
- The 2D `compute_timestep` is excluded: the 2D `StepFlip` takes `dtNew` as a parameter.
- The 2D defects are modelled as written and become preconditions or outcomes, not fixes:
  - `index_from_coord` asserts that the point is outside the grid;
  - `set_weights_to_zero` always stops at its assertion, so a 2D step never passes `compute_velocity_field`, and the later phases are modelled as standalone methods (`FinishSubstep`);
  - `apply_boundary_conditions` needs the last column and row solid and N*(M-1) <= M;
  - `compute_pressure_rhs` needs no fluid cell in row 0 (`RhsReadable`);
  - `compute_pressure_matrix` needs every fluid cell's diagonal entry to exist (`DiagCovers`).
- `Flip2dEngine.Flip2d.ComputePressureMatrix` requires `DiagCovers`: a fluid cell past flat index min(N, M) - 1 makes the source read past `A_diag_`, which is undefined behaviour, and the model does not describe that read.
  - Together with `RhsReadable` this leaves no fluid cell on any grid (`NoFluidUnderGuards`). That lemma uses `Mac2dGrid.Mac2d.DiagBuilt`, which says `A_diag_` has the constructor's min(N, M) entries; the constructor establishes it and `A_diag_` never changes.
  - So `DoPressures`, `GridUpdate` and `FinishSubstep` describe only a grid without fluid: the matrix is empty, d is 0 and the pressures are p.
  - A 2D pressure solve over fluid cells is therefore not covered.
- The 2D `Mac2d` constructor never initialises the solid flags before its counting loop reads them. The model takes them as the parameter `solidInit`, and it allocates the fluid, weight and star buffers that the source's constructor omits.
- The 2D accessors take the assertion's upper bounds plus a non-negative flat index as their requires. A negative `i` that still addresses the buffer aliases another face, modelled as written through the raw flat slot.
- `Particle.h` is not part of this model: `set_position` and `set_velocity` replace one field and leave the previous position alone.
- `get_u_star`, `get_v_star` and `set_uv_star` of the 2D grid are not in `Mac2d.cpp`. The model reads the natural meaning from their use in `FLIP.cpp` (a copy of u and v).
