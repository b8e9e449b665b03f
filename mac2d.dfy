/**
 * The 2D staggered (MAC) grid: flat buffers for pressure, u, v, their
 * accumulated weights and their saved copies, and the solid and fluid flags,
 * addressed exactly as the accessors address them:
 *   u, weights_u, u*   at (N+1)*j + i      ((N+1)*M slots)
 *   v, weights_v, v*   at N*j + i          (N*(M+1) slots)
 *   pressure, solid, fluid at N*j + i      (N*M slots)
 * Every accessor asserts only the upper bounds of its indices; the flat index
 * it computes must still fall inside the buffer, which is the second half of
 * each precondition. A negative i therefore reaches another face of the same
 * buffer (get_u(-1, j) is u(N, j-1)).
 */
module Mac2dGrid {
  import opened Common

  function MinInt(a: int, b: int): (r: int)
    ensures r <= a && r <= b && (r == a || r == b)
  {
    if a <= b then a else b
  }

  /** A read of a flat buffer of rows of width w that passes the upper-bound
      assertion and does not fall before the buffer stays inside it. */
  lemma FlatInBuffer(w: int, h: int, i: int, j: int)
    requires 0 < w && i < w && j < h && 0 <= Flat2(w, i, j)
    ensures 0 <= j && Flat2(w, i, j) < w * h
  {
    if j < 0 {
      MulLe(w, j, -1);
    }
    MulLe(w, j, h - 1);
    assert w * (h - 1) == w * h - w;
  }

  /** The solid flag of cell (i,j) in a solid layout given as a flat sequence. */
  function SolidAt(s: seq<bool>, n: int, m: int, i: int, j: int): bool
    requires |s| == n * m && 0 <= i < n && 0 <= j < m
  {
    Flat2Bounds(n, m, i, j);
    s[Flat2(n, i, j)]
  }

  /** The value the constructor's counting loop gives the index-th entry of A_diag_:
      the not-solid indicators of the cells beside (index,index), two at the first
      and last index and four elsewhere. */
  function DiagCount(s: seq<bool>, n: int, m: int, index: int): (r: int)
    requires 1 < n && 1 < m && |s| == n * m && 0 <= index < MinInt(n, m)
    ensures 0 <= r <= (if index == 0 || index == MinInt(n, m) - 1 then 2 else 4)
  {
    var md := MinInt(n, m);
    if index == 0 then
      B2I(!SolidAt(s, n, m, index, index + 1)) + B2I(!SolidAt(s, n, m, index + 1, index))
    else if index == md - 1 then
      B2I(!SolidAt(s, n, m, index, index - 1)) + B2I(!SolidAt(s, n, m, index - 1, index))
    else
      B2I(!SolidAt(s, n, m, index, index + 1)) + B2I(!SolidAt(s, n, m, index + 1, index))
      + B2I(!SolidAt(s, n, m, index, index - 1)) + B2I(!SolidAt(s, n, m, index - 1, index))
  }

  class Mac2d {
    const N: int
    const M: int
    const sizeX: real
    const sizeY: real
    const cellSizeX: real
    const cellSizeY: real
    const pressure: array<real>
    const u: array<real>
    const v: array<real>
    const solid: array<bool>
    const fluid: array<bool>
    const weightsU: array<real>
    const weightsV: array<real>
    const uStar: array<real>
    const vStar: array<real>
    const aDiag: seq<Triplet>

    /** Buffer shapes as allocated, and no two buffers shared. */
    predicate Valid()
    {
      && 0 < N && 0 < M
      && pressure.Length == N * M && solid.Length == N * M && fluid.Length == N * M
      && u.Length == (N + 1) * M && weightsU.Length == (N + 1) * M && uStar.Length == (N + 1) * M
      && v.Length == N * (M + 1) && weightsV.Length == N * (M + 1) && vStar.Length == N * (M + 1)
      && solid != fluid
      && pressure != u && pressure != v && pressure != weightsU && pressure != weightsV
      && pressure != uStar && pressure != vStar
      && u != v && u != weightsU && u != weightsV && u != uStar && u != vStar
      && v != weightsU && v != weightsV && v != uStar && v != vStar
      && weightsU != weightsV && weightsU != uStar && weightsU != vStar
      && weightsV != uStar && weightsV != vStar
      && uStar != vStar
      && cellSizeX == sizeX / (N as real) && cellSizeY == sizeX / (N as real)
      && (forall k | 0 <= k < |aDiag| :: aDiag[k].row == k && aDiag[k].col == k && 0.0 <= aDiag[k].value)
    }

    /** A_diag_ holds the min(N,M) entries the constructor pushes; it is a
        constant, so this holds for the grid's whole life. */
    predicate DiagBuilt() { |aDiag| == MinInt(N, M) }

    /** The assertion of get_u, set_u, get_weights_u and set_weights_u. */
    predicate UAsserted(i: int, j: int) { i < N + 1 && j < M }
    /** The assertion of get_v, set_v, get_weights_v and set_weights_v. */
    predicate VAsserted(i: int, j: int) { i < N && j < M + 1 }
    /** The assertion of get_pressure, is_solid, is_fluid, is_empty, set_solid, set_fluid. */
    predicate CellAsserted(i: int, j: int) { i < N && j < M }

    /** A u-family access that passes its assertion and stays inside its buffer. */
    predicate UReadable(i: int, j: int) { UAsserted(i, j) && 0 <= Flat2(N + 1, i, j) }
    predicate VReadable(i: int, j: int) { VAsserted(i, j) && 0 <= Flat2(N, i, j) }
    predicate CellReadable(i: int, j: int) { CellAsserted(i, j) && 0 <= Flat2(N, i, j) }

    predicate InU(i: int, j: int)
      ensures InU(i, j) ==> UReadable(i, j) && Flat2(N + 1, i, j) < (N + 1) * M
    {
      if 0 <= i < N + 1 && 0 <= j < M then MulLe(N + 1, 0, j); FlatInBuffer(N + 1, M, i, j); true else false
    }

    predicate InV(i: int, j: int)
      ensures InV(i, j) ==> VReadable(i, j) && Flat2(N, i, j) < N * (M + 1)
    {
      if 0 <= i < N && 0 <= j < M + 1 then MulLe(N, 0, j); FlatInBuffer(N, M + 1, i, j); true else false
    }

    predicate InCell(i: int, j: int)
      ensures InCell(i, j) ==> CellReadable(i, j) && Flat2(N, i, j) < N * M
    {
      if 0 <= i < N && 0 <= j < M then MulLe(N, 0, j); FlatInBuffer(N, M, i, j); true else false
    }

    function GetU(i: int, j: int): real
      reads u
      requires Valid() && UReadable(i, j)
    {
      FlatInBuffer(N + 1, M, i, j);
      u[Flat2(N + 1, i, j)]
    }

    function GetV(i: int, j: int): real
      reads v
      requires Valid() && VReadable(i, j)
    {
      FlatInBuffer(N, M + 1, i, j);
      v[Flat2(N, i, j)]
    }

    function GetUStar(i: int, j: int): real
      reads uStar
      requires Valid() && UReadable(i, j)
    {
      FlatInBuffer(N + 1, M, i, j);
      uStar[Flat2(N + 1, i, j)]
    }

    function GetVStar(i: int, j: int): real
      reads vStar
      requires Valid() && VReadable(i, j)
    {
      FlatInBuffer(N, M + 1, i, j);
      vStar[Flat2(N, i, j)]
    }

    function GetPressure(i: int, j: int): real
      reads pressure
      requires Valid() && CellReadable(i, j)
    {
      FlatInBuffer(N, M, i, j);
      pressure[Flat2(N, i, j)]
    }

    function IsSolid(i: int, j: int): bool
      reads solid
      requires Valid() && CellReadable(i, j)
    {
      FlatInBuffer(N, M, i, j);
      solid[Flat2(N, i, j)]
    }

    function IsFluid(i: int, j: int): bool
      reads fluid
      requires Valid() && CellReadable(i, j)
    {
      FlatInBuffer(N, M, i, j);
      fluid[Flat2(N, i, j)]
    }

    /** is_empty: the cell is an air cell. */
    function IsEmpty(i: int, j: int): (r: bool)
      reads fluid, solid
      requires Valid() && CellReadable(i, j)
      ensures Flat2(N, i, j) < N * M
      ensures r <==> !fluid[Flat2(N, i, j)] && !solid[Flat2(N, i, j)]
    {
      FlatInBuffer(N, M, i, j);
      !IsFluid(i, j) && !IsSolid(i, j)
    }

    function GetWeightsU(i: int, j: int): real
      reads weightsU
      requires Valid() && UReadable(i, j)
    {
      FlatInBuffer(N + 1, M, i, j);
      weightsU[Flat2(N + 1, i, j)]
    }

    function GetWeightsV(i: int, j: int): real
      reads weightsV
      requires Valid() && VReadable(i, j)
    {
      FlatInBuffer(N, M + 1, i, j);
      weightsV[Flat2(N, i, j)]
    }

    /** index_from_coord: the raw coordinates truncated toward zero, not divided by
        the cell size; its assertion holds only for points OUTSIDE the grid. */
    function IndexFromCoord(x: real, y: real): (r: (int, int))
      requires x > sizeX || y > sizeY || x < 0.0 || y < 0.0
      ensures 0.0 <= x ==> 0 <= r.0 && r.0 as real <= x < r.0 as real + 1.0
      ensures 0.0 <= y ==> 0 <= r.1 && r.1 as real <= y < r.1 as real + 1.0
      ensures x < 0.0 ==> r.0 <= 0 && r.0 as real - 1.0 < x
      ensures y < 0.0 ==> r.1 <= 0 && r.1 as real - 1.0 < y
    {
      (Trunc(x), Trunc(y))
    }

    /** Writes one flat slot; for an in-shape (i,j) exactly face (i,j) changes. */
    method SetU(i: int, j: int, value: real)
      requires Valid() && UReadable(i, j)
      modifies u
      ensures Flat2(N + 1, i, j) < u.Length
      ensures u[..] == old(u[..])[Flat2(N + 1, i, j) := value]
      ensures 0 <= i ==> forall a, b | InU(a, b) ::
        GetU(a, b) == if a == i && b == j then value else old(GetU(a, b))
    {
      FlatInBuffer(N + 1, M, i, j);
      u[Flat2(N + 1, i, j)] := value;
      if 0 <= i {
        forall a, b | InU(a, b) && Flat2(N + 1, a, b) == Flat2(N + 1, i, j)
          ensures a == i && b == j
        {
          Flat2Injective(N + 1, a, b, i, j);
        }
      }
    }

    method SetV(i: int, j: int, value: real)
      requires Valid() && VReadable(i, j)
      modifies v
      ensures Flat2(N, i, j) < v.Length
      ensures v[..] == old(v[..])[Flat2(N, i, j) := value]
      ensures 0 <= i ==> forall a, b | InV(a, b) ::
        GetV(a, b) == if a == i && b == j then value else old(GetV(a, b))
    {
      FlatInBuffer(N, M + 1, i, j);
      v[Flat2(N, i, j)] := value;
      if 0 <= i {
        forall a, b | InV(a, b) && Flat2(N, a, b) == Flat2(N, i, j)
          ensures a == i && b == j
        {
          Flat2Injective(N, a, b, i, j);
        }
      }
    }

    method SetPressureAt(i: int, j: int, value: real)
      requires Valid() && CellReadable(i, j)
      modifies pressure
      ensures Flat2(N, i, j) < pressure.Length
      ensures pressure[..] == old(pressure[..])[Flat2(N, i, j) := value]
      ensures GetPressure(i, j) == value
    {
      FlatInBuffer(N, M, i, j);
      pressure[Flat2(N, i, j)] := value;
    }

    method SetWeightsU(i: int, j: int, value: real)
      requires Valid() && UReadable(i, j)
      modifies weightsU
      ensures Flat2(N + 1, i, j) < weightsU.Length
      ensures weightsU[..] == old(weightsU[..])[Flat2(N + 1, i, j) := value]
      ensures 0 <= i ==> forall a, b | InU(a, b) ::
        GetWeightsU(a, b) == if a == i && b == j then value else old(GetWeightsU(a, b))
    {
      FlatInBuffer(N + 1, M, i, j);
      weightsU[Flat2(N + 1, i, j)] := value;
      if 0 <= i {
        forall a, b | InU(a, b) && Flat2(N + 1, a, b) == Flat2(N + 1, i, j)
          ensures a == i && b == j
        {
          Flat2Injective(N + 1, a, b, i, j);
        }
      }
    }

    method SetWeightsV(i: int, j: int, value: real)
      requires Valid() && VReadable(i, j)
      modifies weightsV
      ensures Flat2(N, i, j) < weightsV.Length
      ensures weightsV[..] == old(weightsV[..])[Flat2(N, i, j) := value]
      ensures 0 <= i ==> forall a, b | InV(a, b) ::
        GetWeightsV(a, b) == if a == i && b == j then value else old(GetWeightsV(a, b))
    {
      FlatInBuffer(N, M + 1, i, j);
      weightsV[Flat2(N, i, j)] := value;
      if 0 <= i {
        forall a, b | InV(a, b) && Flat2(N, a, b) == Flat2(N, i, j)
          ensures a == i && b == j
        {
          Flat2Injective(N, a, b, i, j);
        }
      }
    }

    method SetSolid(i: int, j: int)
      requires Valid() && CellReadable(i, j)
      modifies solid
      ensures Flat2(N, i, j) < solid.Length
      ensures solid[..] == old(solid[..])[Flat2(N, i, j) := true]
      ensures IsSolid(i, j)
    {
      FlatInBuffer(N, M, i, j);
      solid[Flat2(N, i, j)] := true;
    }

    method SetFluid(i: int, j: int)
      requires Valid() && CellReadable(i, j)
      modifies fluid
      ensures Flat2(N, i, j) < fluid.Length
      ensures fluid[..] == old(fluid[..])[Flat2(N, i, j) := true]
      ensures 0 <= i ==> forall a, b | InCell(a, b) ::
        IsFluid(a, b) == if a == i && b == j then true else old(IsFluid(a, b))
    {
      FlatInBuffer(N, M, i, j);
      fluid[Flat2(N, i, j)] := true;
      if 0 <= i {
        forall a, b | InCell(a, b) && Flat2(N, a, b) == Flat2(N, i, j)
          ensures a == i && b == j
        {
          Flat2Injective(N, a, b, i, j);
        }
      }
    }

    /** reset_fluid: every fluid flag cleared (std::fill). */
    method ResetFluid()
      requires Valid()
      modifies fluid
      ensures forall x | 0 <= x < fluid.Length :: !fluid[x]
    {
      forall x | 0 <= x < fluid.Length {
        fluid[x] := false;
      }
    }

    /** set_pressure(VectorXd): std::copy of p into the front of the pressure buffer. */
    method SetPressure(p: seq<real>)
      requires Valid() && |p| <= pressure.Length
      modifies pressure
      ensures pressure[..] == p + old(pressure[..])[|p|..]
    {
      forall x | 0 <= x < |p| {
        pressure[x] := p[x];
      }
    }

    /** set_uv_star: the saved copies u* and v* of the current velocities. */
    method SetUVStar()
      requires Valid()
      modifies uStar, vStar
      ensures uStar[..] == u[..] && vStar[..] == v[..]
    {
      forall x | 0 <= x < u.Length {
        uStar[x] := u[x];
      }
      forall x | 0 <= x < v.Length {
        vStar[x] := v[x];
      }
    }

    /** set_velocities_to_zero: the loops run j < M, i < N for both fields, so the
        last u column u(N,j) and the last v row v(i,M) keep their values. */
    method SetVelocitiesToZero()
      requires Valid()
      modifies u, v
      ensures forall a, b | InU(a, b) :: GetU(a, b) == if a < N then 0.0 else old(GetU(a, b))
      ensures forall a, b | InV(a, b) :: GetV(a, b) == if b < M then 0.0 else old(GetV(a, b))
    {
      var j := 0;
      while j < M
        invariant 0 <= j <= M
        invariant forall a, b | InU(a, b) :: GetU(a, b) == if a < N && b < j then 0.0 else old(GetU(a, b))
        invariant forall a, b | InV(a, b) :: GetV(a, b) == if b < j then 0.0 else old(GetV(a, b))
      {
        var i := 0;
        while i < N
          invariant 0 <= i <= N
          invariant forall a, b | InU(a, b) ::
            GetU(a, b) == if a < N && Before2(a, b, i, j) then 0.0 else old(GetU(a, b))
          invariant forall a, b | InV(a, b) ::
            GetV(a, b) == if Before2(a, b, i, j) then 0.0 else old(GetV(a, b))
        {
          SetU(i, j, 0.0);
          SetV(i, j, 0.0);
          i := i + 1;
        }
        j := j + 1;
      }
    }

    /** set_weights_to_zero, with the process ending at the first failing
        assertion. The loops visit j = 0..M, i = 0..N; at (N,0) set_weights_u
        passes but set_weights_v(N,0) breaks i < N, so every call ends there:
        `aborted` is always true and only row 0 of both weight fields is zeroed. */
    method SetWeightsToZero() returns (aborted: bool)
      requires Valid()
      modifies weightsU, weightsV
      ensures aborted
      ensures forall a, b | InU(a, b) :: GetWeightsU(a, b) == if b == 0 then 0.0 else old(GetWeightsU(a, b))
      ensures forall a, b | InV(a, b) :: GetWeightsV(a, b) == if b == 0 then 0.0 else old(GetWeightsV(a, b))
    {
      aborted := false;
      var j := 0;
      while j < M + 1 && !aborted
        invariant j == 0
        invariant aborted ==> forall a, b | InU(a, b) ::
          GetWeightsU(a, b) == if b == 0 then 0.0 else old(GetWeightsU(a, b))
        invariant aborted ==> forall a, b | InV(a, b) ::
          GetWeightsV(a, b) == if b == 0 then 0.0 else old(GetWeightsV(a, b))
        invariant !aborted ==> forall a, b | InU(a, b) :: GetWeightsU(a, b) == old(GetWeightsU(a, b))
        invariant !aborted ==> forall a, b | InV(a, b) :: GetWeightsV(a, b) == old(GetWeightsV(a, b))
        decreases M + 1 - j, if aborted then 0 else 1
      {
        var i := 0;
        while i < N + 1 && !aborted
          invariant 0 <= i <= N && (aborted ==> i == N)
          invariant forall a, b | InU(a, b) ::
            GetWeightsU(a, b) == if b == j && (a < i || aborted) then 0.0 else old(GetWeightsU(a, b))
          invariant forall a, b | InV(a, b) ::
            GetWeightsV(a, b) == if b == j && a < i then 0.0 else old(GetWeightsV(a, b))
          decreases N + 1 - i, if aborted then 0 else 1
        {
          if !UAsserted(i, j) {
            aborted := true;
          } else {
            SetWeightsU(i, j, 0.0);
            if !VAsserted(i, j) {
              aborted := true;
            } else {
              SetWeightsV(i, j, 0.0);
              i := i + 1;
            }
          }
        }
        if !aborted {
          j := j + 1;
        }
      }
    }

    constructor (n: int, m: int, dx: real, dy: real, solidInit: seq<bool>)
      requires 0 < n && 0 < m && |solidInit| == n * m
      // the A_diag_ loop calls is_solid(0,1) and is_solid(1,0), whose assertions need n > 1 and m > 1
      requires 1 < n && 1 < m
      ensures Valid() && N == n && M == m && sizeX == dx && sizeY == dy
      ensures cellSizeX == dx / (n as real) && cellSizeY == dx / (n as real)
      ensures solid[..] == solidInit
      ensures |aDiag| == MinInt(n, m) && DiagBuilt()
      ensures forall k | 0 <= k < |aDiag| :: aDiag[k] == Triplet(k, k, DiagCount(solidInit, n, m, k) as real)
      ensures fresh(pressure) && fresh(u) && fresh(v) && fresh(solid) && fresh(fluid)
      ensures fresh(weightsU) && fresh(weightsV) && fresh(uStar) && fresh(vStar)
    {
      N, M := n, m;
      sizeX, sizeY := dx, dy;
      cellSizeX := dx / (n as real);
      cellSizeY := dx / (n as real);
      pressure := new real[n * m];
      u := new real[(n + 1) * m];
      v := new real[n * (m + 1)];
      var s := new bool[n * m];
      forall x | 0 <= x < n * m {
        s[x] := solidInit[x];
      }
      solid := s;
      fluid := new bool[n * m];
      weightsU := new real[(n + 1) * m];
      weightsV := new real[n * (m + 1)];
      uStar := new real[(n + 1) * m];
      vStar := new real[n * (m + 1)];
      var minDimension := MinInt(n, m);
      var diag: seq<Triplet> := [];
      var index := 0;
      while index < minDimension
        invariant 0 <= index <= minDimension && |diag| == index
        invariant forall k | 0 <= k < index :: diag[k] == Triplet(k, k, DiagCount(solidInit, n, m, k) as real)
      {
        var count := DiagCount(solidInit, n, m, index);
        diag := diag + [Triplet(index, index, count as real)];
        index := index + 1;
      }
      aDiag := diag;
      assert s[..] == solidInit;
    }
  }

}
