/**
 * Values shared by the 2D and the 3D FLIP engines: vectors, particles, sparse
 * matrix triplets, the C++ rounding functions the engines use, and the
 * row-major flat layouts of the grid buffers.
 */
module Common {

  /** An Eigen::Vector3d, with exact real components. */
  datatype Vec3 = Vec3(x: real, y: real, z: real)

  /** A particle: its position, its previous position and its velocity. */
  datatype Particle = Particle(pos: Vec3, prevPos: Vec3, vel: Vec3)

  /** An Eigen::Triplet<double>: one (row, column, value) entry of a sparse matrix. */
  datatype Triplet = Triplet(row: int, col: int, value: real)

  /** The three axes; selects a velocity component and a face family. */
  datatype Axis = X | Y | Z

  function Comp(v: Vec3, a: Axis): real
  {
    match a
    case X => v.x
    case Y => v.y
    case Z => v.z
  }

  function Add(a: Vec3, b: Vec3): (r: Vec3)
    ensures forall ax :: Comp(r, ax) == Comp(a, ax) + Comp(b, ax)
  {
    Vec3(a.x + b.x, a.y + b.y, a.z + b.z)
  }

  function Scale(s: real, a: Vec3): (r: Vec3)
    ensures forall ax :: Comp(r, ax) == s * Comp(a, ax)
  {
    Vec3(s * a.x, s * a.y, s * a.z)
  }

  /** The squared Euclidean distance; the engines compare norm() with h, which
      for h >= 0 is the same as comparing this with h*h. */
  function Dist2(a: Vec3, b: Vec3): (r: real)
    ensures r >= 0.0
  {
    var dx, dy, dz := a.x - b.x, a.y - b.y, a.z - b.z;
    dx * dx + dy * dy + dz * dz
  }

  function Abs(x: real): (r: real)
    ensures r >= 0.0 && (r == x || r == -x)
  {
    if x < 0.0 then -x else x
  }

  function Min(a: real, b: real): (r: real)
    ensures r <= a && r <= b && (r == a || r == b)
  {
    if a <= b then a else b
  }

  function B2I(b: bool): (r: int)
    ensures 0 <= r <= 1 && (r == 1 <==> b)
  {
    if b then 1 else 0
  }

  /** std::ceil on an exact real. */
  function Ceil(x: real): (r: int)
    ensures x <= r as real < x + 1.0
  {
    var f := x.Floor;
    if f as real == x then f else f + 1
  }

  /** The C++ conversion int(x): truncation toward zero. */
  function Trunc(x: real): (r: int)
    ensures 0.0 <= x ==> 0 <= r && r as real <= x < r as real + 1.0
    ensures x < 0.0 ==> r <= 0 && r as real - 1.0 < x <= r as real
  {
    if x >= 0.0 then x.Floor else -((-x).Floor)
  }

  /** Cell or face (a,b,c) comes before (i,j,k) in the order of loops over k, then j, then i. */
  predicate Before3(a: int, b: int, c: int, i: int, j: int, k: int)
  {
    c < k || (c == k && (b < j || (b == j && a < i)))
  }

  /** Face (a,b) comes before (i,j) in the order of loops over j, then i. */
  predicate Before2(a: int, b: int, i: int, j: int)
  {
    b < j || (b == j && a < i)
  }

  lemma MulLe(a: int, b: int, c: int)
    requires 0 <= a && b <= c
    ensures a * b <= a * c
  {
    assert a * c - a * b == a * (c - b);
  }

  /** The row-major flat index i + w*j of a 2D buffer with rows of width w. */
  function Flat2(w: int, i: int, j: int): int
  {
    i + w * j
  }

  lemma Flat2Bounds(w: int, h: int, i: int, j: int)
    requires 0 <= i < w && 0 <= j < h
    ensures 0 <= Flat2(w, i, j) < w * h
  {
    MulLe(w, j, h - 1);
    MulLe(w, 0, j);
    assert w * (h - 1) == w * h - w;
  }

  lemma Flat2Injective(w: int, i: int, j: int, i': int, j': int)
    requires 0 <= i < w && 0 <= i' < w
    requires Flat2(w, i, j) == Flat2(w, i', j')
    ensures i == i' && j == j'
  {
    if j < j' {
      MulLe(w, j + 1, j');
    } else if j' < j {
      MulLe(w, j' + 1, j);
    }
  }

  /** Loop order and flat order agree: a cell visited earlier has a smaller index. */
  lemma Flat2Before(w: int, a: int, b: int, i: int, j: int)
    requires 0 <= a < w && 0 <= i && Before2(a, b, i, j)
    ensures Flat2(w, a, b) < Flat2(w, i, j)
  {
    if b < j {
      MulLe(w, b + 1, j);
      assert w * (b + 1) == w * b + w;
    }
  }

  /** The flat index i + w*j + (w*h)*k of a 3D buffer with w*h entries per plane:
      (N+1)*j + i + (N+1)*M*k for u, i + j*nx + nx*ny*k for cells. */
  function Flat3(w: int, h: int, i: int, j: int, k: int): int
  {
    i + w * j + (w * h) * k
  }

  /** Moving one row or one plane on moves the flat index by w or by w*h. */
  lemma Flat3Step(w: int, h: int, i: int, j: int, k: int)
    ensures Flat3(w, h, i, j + 1, k) == Flat3(w, h, i, j, k) + w
    ensures Flat3(w, h, i, j, k + 1) == Flat3(w, h, i, j, k) + w * h
  {
    assert w * (j + 1) == w * j + w;
    assert (w * h) * (k + 1) == (w * h) * k + w * h;
  }

  lemma Flat3Bounds(w: int, h: int, l: int, i: int, j: int, k: int)
    requires 0 <= i < w && 0 <= j < h && 0 <= k < l
    ensures 0 <= Flat3(w, h, i, j, k) < w * h * l
  {
    Flat2Bounds(w, h, i, j);
    Flat2Bounds(w * h, l, Flat2(w, i, j), k);
  }

  lemma Flat3Injective(w: int, h: int, i: int, j: int, k: int, i': int, j': int, k': int)
    requires 0 <= i < w && 0 <= j < h && 0 <= i' < w && 0 <= j' < h
    requires Flat3(w, h, i, j, k) == Flat3(w, h, i', j', k')
    ensures i == i' && j == j' && k == k'
  {
    Flat2Bounds(w, h, i, j);
    Flat2Bounds(w, h, i', j');
    Flat2Injective(w * h, Flat2(w, i, j), k, Flat2(w, i', j'), k');
    Flat2Injective(w, i, j, i', j');
  }
}
