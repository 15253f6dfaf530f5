/**
 * The vertex buffers of the curve demo: a circle, a superellipse and the
 * Hilbert curve around the cube, each written as records of seven floats
 * (position, normal, path coordinate) through a running destination
 * pointer, which is an index `p` into an array here.
 *
 * Floating point is modelled by `real`; `cos`, `sin`, `pow` and the
 * vector library's `normalize` are parameters.
 */
module CurveBuffers {
  import opened Curve

  datatype Vec = Vec(x: real, y: real, z: real)

  function Plus(u: Vec, v: Vec): Vec
  {
    Vec(u.x + v.x, u.y + v.y, u.z + v.z)
  }

  function Minus(u: Vec, v: Vec): Vec
  {
    Vec(u.x - v.x, u.y - v.y, u.z - v.z)
  }

  function Times(k: real, v: Vec): Vec
  {
    Vec(k * v.x, k * v.y, k * v.z)
  }

  function Dot(u: Vec, v: Vec): real
  {
    u.x * v.x + u.y * v.y + u.z * v.z
  }

  /** `TwoPi` as the demo library defines it. */
  const TwoPi: real := 6.28318531

  /** The circle's `radius`. */
  const Radius: real := 1.0

  /** `HilbertSegmentLength`: the length of one turtle move. */
  const SegmentLength: real := 0.05

  /** The factor the normalised Hilbert points are scaled by. */
  const SphereRadius: real := 1.25

  /** The normal every circle and superellipse record carries. */
  const Up := Vec(0.0, 0.0, 1.0)

  /** One record's attributes besides its path coordinate. */
  datatype Vertex = Vertex(position: Vec, normal: Vec)

  // ---------------------------------------------------------------------
  // Records

  /** The seven floats of record `n` of `count`: position, normal, then `n / count`. */
  function Record(v: Vertex, n: nat, count: nat): seq<real>
    requires n < count
  {
    [v.position.x, v.position.y, v.position.z, v.normal.x, v.normal.y, v.normal.z, n as real / count as real]
  }

  /**
   * Where a buffer's vertices come from: a shape swept from angle `start`
   * in steps of `step`, normals along +z, or a list of points, each with
   * its normalised direction as its normal.
   */
  datatype Source =
    | Swept(point: real -> Vec, start: real, step: real)
    | Traced(points: seq<Vec>, normalize: Vec -> Vec)

  /** Vertex `n` of a source. */
  function VertexOf(src: Source, n: nat): Vertex
  {
    match src
    case Swept(point, start, step) => Vertex(point(Angle(start, step, n)), Up)
    case Traced(points, normalize) =>
      if n < |points| then Vertex(points[n], normalize(points[n])) else Vertex(Up, Up)
  }

  /** The records of the first `m` vertices of a buffer of `count`. */
  function Records(src: Source, count: nat, m: nat): (r: seq<real>)
    requires m <= count
    ensures |r| == 7 * m
  {
    if m == 0 then [] else Records(src, count, m - 1) + Record(VertexOf(src, m - 1), m - 1, count)
  }

  /** Float `7 * n + i` of the buffer is attribute `i` of record `n`. */
  lemma {:induction false} RecordsAt(src: Source, count: nat, m: nat, n: nat, i: nat)
    requires n < m <= count && i < 7
    ensures Records(src, count, m)[7 * n + i] == Record(VertexOf(src, n), n, count)[i]
  {
    if n < m - 1 {
      RecordsAt(src, count, m - 1, n, i);
    }
  }

  /**
   * The path coordinates run from 0 upwards, growing with the record
   * number, and stay below 1.
   */
  lemma PathCoords(src: Source, count: nat, n: nat, m: nat)
    requires n < m < count
    ensures Records(src, count, count)[7 * n + 6] == n as real / count as real
    ensures 0.0 <= Records(src, count, count)[7 * n + 6] < Records(src, count, count)[7 * m + 6] < 1.0
  {
    RecordsAt(src, count, count, n, 6);
    RecordsAt(src, count, count, m, 6);
    Fractions(n, m, count);
  }

  lemma Fractions(n: nat, m: nat, count: nat)
    requires n < m < count
    ensures 0.0 <= n as real / count as real < m as real / count as real < 1.0
  {
    var c := count as real;
    assert n as real / c < m as real / c by {
      assert n as real < m as real;
    }
    assert m as real / c < 1.0 by {
      assert m as real < c;
    }
  }

  /** Writes one record at `p`, leaving the floats before it as they were. */
  method WriteRecord(positions: array<real>, p: nat, v: Vertex, n: nat, count: nat)
    requires p + 7 <= positions.Length && n < count
    modifies positions
    ensures positions[..p + 7] == old(positions[..p]) + Record(v, n, count)
  {
    positions[p] := v.position.x;
    positions[p + 1] := v.position.y;
    positions[p + 2] := v.position.z;
    positions[p + 3] := v.normal.x;
    positions[p + 4] := v.normal.y;
    positions[p + 5] := v.normal.z;
    positions[p + 6] := n as real / count as real;
  }

  // ---------------------------------------------------------------------
  // Angles

  /** `Count = slices + 2` with adjacency, `slices` without. */
  function Count(slices: nat, adjacency: bool): nat
  {
    slices + if adjacency then 2 else 0
  }

  /** `dtheta = TwoPi / (slices - 1)`. */
  function DTheta(slices: nat): real
    requires slices != 1
  {
    TwoPi / (slices as real - 1.0)
  }

  /** With adjacency the sweep starts one step early, at `-dtheta`. */
  function StartAngle(slices: nat, adjacency: bool): real
    requires slices != 1
  {
    if adjacency then -DTheta(slices) else 0.0
  }

  /** `theta` after `n` steps of `theta += dtheta` from `start`. */
  function Angle(start: real, d: real, n: nat): real
  {
    if n == 0 then start else Angle(start, d, n - 1) + d
  }

  /** The angle grows evenly: `n` steps add `n * dtheta`. */
  lemma {:induction false} AngleLinear(start: real, d: real, n: nat)
    ensures Angle(start, d, n) == start + n as real * d
  {
    if n > 0 {
      AngleLinear(start, d, n - 1);
      assert n as real * d == (n - 1) as real * d + d;
    }
  }

  /** `slices - 1` steps of the sweep make exactly one full turn. */
  lemma FullTurn(slices: nat, start: real)
    requires slices >= 2
    ensures Angle(start, DTheta(slices), slices - 1) == start + TwoPi
  {
    AngleLinear(start, DTheta(slices), slices - 1);
    assert (slices - 1) as real == slices as real - 1.0;
  }

  // ---------------------------------------------------------------------
  // The circle and the superellipse

  /** `sign`: -1, 0 or 1. */
  function Sign(f: real): real
  {
    if f < 0.0 then -1.0 else if f > 0.0 then 1.0 else 0.0
  }

  /** `std::abs` on a float. */
  function Magnitude(f: real): real
  {
    if f < 0.0 then -f else f
  }

  /** The circle's point at angle `t`: `(radius cos t, radius sin t, 0)`. */
  function CirclePoint(cos: real -> real, sin: real -> real): real -> Vec
  {
    t => Vec(Radius * cos(t), Radius * sin(t), 0.0)
  }

  /** One superellipse coordinate: `pow(|c|, 2 / e) * a * sign(c)`. */
  function SuperCoordinate(pow: (real, real) -> real, e: real, a: real, c: real): real
    requires e != 0.0
  {
    pow(Magnitude(c), 2.0 / e) * a * Sign(c)
  }

  /** The superellipse's point at angle `t`, exponent `e`, semi-axes `a` and `b`. */
  function SuperellipsePoint(cos: real -> real, sin: real -> real, pow: (real, real) -> real, e: real, a: real, b: real): real -> Vec
    requires e != 0.0
  {
    t => Vec(SuperCoordinate(pow, e, a, cos(t)), SuperCoordinate(pow, e, b, sin(t)), 0.0)
  }

  /**
   * The loop of `CreateCircle` and `CreateSuperellipse`: `count` records
   * of the shape's point at `theta`, from `start`, `theta` advancing by
   * `dtheta` after each.
   */
  method Sweep(point: real -> Vec, count: nat, start: real, dtheta: real) returns (positions: array<real>)
    ensures positions[..] == Records(Swept(point, start, dtheta), count, count)
  {
    positions := new real[7 * count];
    var theta := start;
    var p := 0;
    for n := 0 to count
      invariant p == 7 * n
      invariant theta == Angle(start, dtheta, n)
      invariant positions[..p] == Records(Swept(point, start, dtheta), count, n)
    {
      WriteRecord(positions, p, Vertex(point(theta), Up), n, count);
      p := p + 7;
      theta := theta + dtheta;
    }
    assert positions[..] == positions[..p];
  }

  /** The buffer a sweep of `point` writes for `slices` and `adjacency`. */
  function SweepSource(point: real -> Vec, slices: nat, adjacency: bool): Source
    requires slices != 1
  {
    Swept(point, StartAngle(slices, adjacency), DTheta(slices))
  }

  /**
   * The body of `CreateCircle` and `CreateSuperellipse`: `slices` records,
   * with one more at each end for adjacency, the angle stepping by
   * `TwoPi / (slices - 1)` from 0, or from one step before 0 for adjacency.
   */
  method CreateSweep(point: real -> Vec, slices: nat, adjacency: bool) returns (count: nat, positions: array<real>)
    requires slices != 1
    ensures count == Count(slices, adjacency)
    ensures positions[..] == Records(SweepSource(point, slices, adjacency), count, count)
  {
    count := slices + (if adjacency then 2 else 0);
    var dtheta := DTheta(slices);
    var theta := if adjacency then -dtheta else 0.0;
    positions := Sweep(point, count, theta, dtheta);
  }

  /** `CreateCircle`: the unit circle in the z = 0 plane. */
  method CreateCircle(slices: nat, adjacency: bool, cos: real -> real, sin: real -> real)
    returns (count: nat, positions: array<real>)
    requires slices != 1
    ensures count == Count(slices, adjacency)
    ensures positions[..] == Records(SweepSource(CirclePoint(cos, sin), slices, adjacency), count, count)
  {
    count, positions := CreateSweep(CirclePoint(cos, sin), slices, adjacency);
  }

  /** `CreateSuperellipse`: the superellipse of exponent `e` and semi-axes `a`, `b`. */
  method CreateSuperellipse(slices: nat, e: real, a: real, b: real, adjacency: bool,
                            cos: real -> real, sin: real -> real, pow: (real, real) -> real)
    returns (count: nat, positions: array<real>)
    requires slices != 1 && e != 0.0
    ensures count == Count(slices, adjacency)
    ensures positions[..] == Records(SweepSource(SuperellipsePoint(cos, sin, pow, e, a, b), slices, adjacency), count, count)
  {
    count, positions := CreateSweep(SuperellipsePoint(cos, sin, pow, e, a, b), slices, adjacency);
  }

  /** The shape repeats after a full turn. */
  ghost predicate Periodic(point: real -> Vec)
  {
    forall t :: point(t) == point(t + TwoPi)
  }

  /** Both shapes repeat after a full turn when `cos` and `sin` do. */
  lemma PeriodicShapes(cos: real -> real, sin: real -> real, pow: (real, real) -> real, e: real, a: real, b: real)
    requires e != 0.0
    requires forall t :: cos(t) == cos(t + TwoPi) && sin(t) == sin(t + TwoPi)
    ensures Periodic(CirclePoint(cos, sin))
    ensures Periodic(SuperellipsePoint(cos, sin, pow, e, a, b))
  {
    forall t
      ensures CirclePoint(cos, sin)(t) == CirclePoint(cos, sin)(t + TwoPi)
      ensures SuperellipsePoint(cos, sin, pow, e, a, b)(t) == SuperellipsePoint(cos, sin, pow, e, a, b)(t + TwoPi)
    {
      assert cos(t) == cos(t + TwoPi) && sin(t) == sin(t + TwoPi);
    }
  }

  /**
   * The sweep closes: without adjacency its last vertex repeats its first;
   * with adjacency the vertices 1 and `slices` are the seam's two copies,
   * and the extra first and last vertices repeat the neighbours across it
   * (vertex `slices - 1` and vertex 2).
   */
  lemma Seam(point: real -> Vec, slices: nat, adjacency: bool)
    requires Periodic(point) && slices >= 2
    ensures var src := SweepSource(point, slices, adjacency);
      if adjacency then
        && VertexOf(src, 0) == VertexOf(src, slices - 1)
        && VertexOf(src, 1) == VertexOf(src, slices)
        && VertexOf(src, slices + 1) == VertexOf(src, 2)
      else
        VertexOf(src, slices - 1) == VertexOf(src, 0)
  {
    var d := DTheta(slices);
    var start := StartAngle(slices, adjacency);
    var turn: nat := slices - 1;
    TurnSteps(slices);
    SameTurn(point, start, d, 0, turn);
    if adjacency {
      SameTurn(point, start, d, 1, turn);
      SameTurn(point, start, d, 2, turn);
    }
  }

  /** `slices - 1` steps of `dtheta` make one full turn. */
  lemma TurnSteps(slices: nat)
    requires slices >= 2
    ensures DTheta(slices) * ((slices - 1) as real) == TwoPi
  {
    assert (slices - 1) as real == slices as real - 1.0;
  }

  /** Two angles a full turn of steps apart give the same point. */
  lemma SameTurn(point: real -> Vec, start: real, d: real, earlier: nat, steps: nat)
    requires Periodic(point) && d * (steps as real) == TwoPi
    ensures point(Angle(start, d, earlier + steps)) == point(Angle(start, d, earlier))
  {
    AngleLinear(start, d, earlier + steps);
    AngleLinear(start, d, earlier);
    var t := Angle(start, d, earlier);
    assert (earlier + steps) as real * d == earlier as real * d + d * (steps as real);
    assert point(t) == point(t + TwoPi);
  }

  /**
   * The superellipse of exponent 2 with unit semi-axes is the circle: given
   * `pow(x, 1) == x`, `CreateSuperellipse(slices, 2, 1, 1, adjacency)`
   * writes the records `CreateCircle(slices, adjacency)` writes.
   */
  lemma SuperellipseIsCircle(cos: real -> real, sin: real -> real, pow: (real, real) -> real,
                              slices: nat, adjacency: bool)
    requires forall x :: 0.0 <= x ==> pow(x, 1.0) == x
    requires slices != 1
    ensures var count := Count(slices, adjacency);
      Records(SweepSource(SuperellipsePoint(cos, sin, pow, 2.0, 1.0, 1.0), slices, adjacency), count, count)
      == Records(SweepSource(CirclePoint(cos, sin), slices, adjacency), count, count)
  {
    var super := SweepSource(SuperellipsePoint(cos, sin, pow, 2.0, 1.0, 1.0), slices, adjacency);
    var circle := SweepSource(CirclePoint(cos, sin), slices, adjacency);
    forall n: nat | n < Count(slices, adjacency)
      ensures VertexOf(super, n) == VertexOf(circle, n)
    {
      SuperellipsePointIsCircle(cos, sin, pow, Angle(StartAngle(slices, adjacency), DTheta(slices), n));
    }
    RecordsAgree(super, circle, Count(slices, adjacency), Count(slices, adjacency));
  }

  /** At every angle, the unit superellipse of exponent 2 and the circle meet. */
  lemma SuperellipsePointIsCircle(cos: real -> real, sin: real -> real, pow: (real, real) -> real, t: real)
    requires forall x :: 0.0 <= x ==> pow(x, 1.0) == x
    ensures SuperellipsePoint(cos, sin, pow, 2.0, 1.0, 1.0)(t) == CirclePoint(cos, sin)(t)
  {
    UnitSuperCoordinate(pow, cos(t));
    UnitSuperCoordinate(pow, sin(t));
  }

  /** Two sources with the same first `m` vertices give the same first `m` records. */
  lemma {:induction false} RecordsAgree(s: Source, s': Source, count: nat, m: nat)
    requires m <= count
    requires forall n: nat :: n < m ==> VertexOf(s, n) == VertexOf(s', n)
    ensures Records(s, count, m) == Records(s', count, m)
  {
    if m > 0 {
      RecordsAgree(s, s', count, m - 1);
    }
  }

  lemma UnitSuperCoordinate(pow: (real, real) -> real, c: real)
    requires forall x :: 0.0 <= x ==> pow(x, 1.0) == x
    ensures SuperCoordinate(pow, 2.0, 1.0, c) == Radius * c
  {
    assert pow(Magnitude(c), 1.0) == Magnitude(c);
  }
}
