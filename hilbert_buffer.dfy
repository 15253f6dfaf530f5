/**
 * The second half of building the Hilbert curve's vertex buffer: the
 * turtle's lattice points become float points, are recentred on the
 * middle of their bounding box and pushed out onto the sphere of radius
 * 1.25, optionally get two extra points at each end for adjacency, and
 * are written as records whose normal is the point's own direction.
 */
module HilbertBuffer {
  import opened Curve
  import opened CurveBuffers

  // ---------------------------------------------------------------------
  // From lattice points to floats

  /** A lattice point measured in turtle moves, as a float point. */
  function ToVec(p: Point): Vec
  {
    Vec(SegmentLength * p.x as real, SegmentLength * p.y as real, SegmentLength * p.z as real)
  }

  /** The turtle's path as float points. */
  function Scaled(path: seq<Point>): (r: seq<Vec>)
    ensures |r| == |path|
    ensures forall i :: 0 <= i < |path| ==> r[i] == ToVec(path[i])
  {
    seq(|path|, i requires 0 <= i < |path| => ToVec(path[i]))
  }

  // ---------------------------------------------------------------------
  // The bounding box

  function Min(a: real, b: real): real
  {
    if a < b then a else b
  }

  function Max(a: real, b: real): real
  {
    if a > b then a else b
  }

  /** `minPerElem`: the component-wise minimum. */
  function MinPerElem(u: Vec, v: Vec): Vec
  {
    Vec(Min(u.x, v.x), Min(u.y, v.y), Min(u.z, v.z))
  }

  /** `maxPerElem`: the component-wise maximum. */
  function MaxPerElem(u: Vec, v: Vec): Vec
  {
    Vec(Max(u.x, v.x), Max(u.y, v.y), Max(u.z, v.z))
  }

  /** The minimum corner of the first `n` points, folded from the front. */
  function Lower(points: seq<Vec>, n: nat): Vec
    requires 1 <= n <= |points|
  {
    if n == 1 then points[0] else MinPerElem(points[n - 1], Lower(points, n - 1))
  }

  /** The maximum corner of the first `n` points, folded from the front. */
  function Upper(points: seq<Vec>, n: nat): Vec
    requires 1 <= n <= |points|
  {
    if n == 1 then points[0] else MaxPerElem(points[n - 1], Upper(points, n - 1))
  }

  /** Every one of the first `n` points lies inside the box `Lower`..`Upper`. */
  lemma {:induction false} InsideBox(points: seq<Vec>, n: nat, i: nat)
    requires i < n <= |points|
    ensures Lower(points, n).x <= points[i].x <= Upper(points, n).x
    ensures Lower(points, n).y <= points[i].y <= Upper(points, n).y
    ensures Lower(points, n).z <= points[i].z <= Upper(points, n).z
  {
    if i < n - 1 {
      InsideBox(points, n - 1, i);
    }
  }

  /** Each coordinate of each corner is that coordinate of one of the points. */
  lemma {:induction false} BoxIsTight(points: seq<Vec>, n: nat)
    requires 1 <= n <= |points|
    ensures exists i :: 0 <= i < n && Lower(points, n).x == points[i].x
    ensures exists i :: 0 <= i < n && Lower(points, n).y == points[i].y
    ensures exists i :: 0 <= i < n && Lower(points, n).z == points[i].z
    ensures exists i :: 0 <= i < n && Upper(points, n).x == points[i].x
    ensures exists i :: 0 <= i < n && Upper(points, n).y == points[i].y
    ensures exists i :: 0 <= i < n && Upper(points, n).z == points[i].z
  {
    if n == 1 {
      assert Lower(points, n) == points[0] == Upper(points, n);
    } else {
      BoxIsTight(points, n - 1);
    }
  }

  /** The corner loop: the box of all the points, visiting them front to back. */
  method Corners(points: seq<Vec>) returns (lo: Vec, hi: Vec)
    requires |points| > 0
    ensures lo == Lower(points, |points|) && hi == Upper(points, |points|)
  {
    lo, hi := points[0], points[0];
    var i := 1;
    while i < |points|
      invariant 1 <= i <= |points|
      invariant lo == Lower(points, i) && hi == Upper(points, i)
    {
      lo := MinPerElem(points[i], lo);
      hi := MaxPerElem(points[i], hi);
      i := i + 1;
    }
  }

  /** `lerp(t, a, b)`: `a + (b - a) * t`. */
  function Lerp(t: real, a: Vec, b: Vec): Vec
  {
    Plus(a, Times(t, Minus(b, a)))
  }

  /**
   * Moved by the offset `lerp(0.5, lo, hi)`, every point lies within half
   * the box's extent of the origin in each coordinate.
   */
  lemma Centred(points: seq<Vec>, i: nat)
    requires i < |points|
    ensures var lo, hi := Lower(points, |points|), Upper(points, |points|);
      var d := Minus(points[i], Lerp(0.5, lo, hi));
      Magnitude(d.x) <= (hi.x - lo.x) / 2.0 &&
      Magnitude(d.y) <= (hi.y - lo.y) / 2.0 &&
      Magnitude(d.z) <= (hi.z - lo.z) / 2.0
  {
    InsideBox(points, |points|, i);
  }

  // ---------------------------------------------------------------------
  // Onto the sphere

  /** Each point moved by `offset`, normalised and scaled to radius 1.25. */
  function Recentred(points: seq<Vec>, offset: Vec, normalize: Vec -> Vec): (r: seq<Vec>)
    ensures |r| == |points|
  {
    seq(|points|, i requires 0 <= i < |points| => Times(SphereRadius, normalize(Minus(points[i], offset))))
  }

  /** The recentring loop, rewriting the points one at a time. */
  method Recentre(points: seq<Vec>, offset: Vec, normalize: Vec -> Vec) returns (r: seq<Vec>)
    ensures r == Recentred(points, offset, normalize)
  {
    r := points;
    var i := 0;
    while i < |r|
      invariant i <= |r| == |points|
      invariant r[..i] == Recentred(points, offset, normalize)[..i]
      invariant r[i..] == points[i..]
    {
      var d := Minus(r[i], offset);
      r := r[i := Times(SphereRadius, normalize(d))];
      i := i + 1;
    }
  }

  /**
   * Where `normalize` gives a unit vector, the recentred point lies on the
   * sphere of radius 1.25 around the origin.
   */
  lemma OnSphere(points: seq<Vec>, offset: Vec, normalize: Vec -> Vec, i: nat)
    requires i < |points|
    requires var u := normalize(Minus(points[i], offset)); Dot(u, u) == 1.0
    ensures var q := Recentred(points, offset, normalize)[i]; Dot(q, q) == SphereRadius * SphereRadius
  {
    var u := normalize(Minus(points[i], offset));
    var q := Recentred(points, offset, normalize)[i];
    assert q == Times(SphereRadius, u);
    ScaledDot(SphereRadius, u);
  }

  lemma ScaledDot(k: real, u: Vec)
    ensures Dot(Times(k, u), Times(k, u)) == k * k * Dot(u, u)
  {
    assert (k * u.x) * (k * u.x) == k * k * (u.x * u.x);
    assert (k * u.y) * (k * u.y) == k * k * (u.y * u.y);
    assert (k * u.z) * (k * u.z) == k * k * (u.z * u.z);
  }

  // ---------------------------------------------------------------------
  // Adjacency

  /**
   * Two points before the first, continuing the first segment backwards,
   * and two after the last, continuing the last segment forwards.
   */
  function Extended(points: seq<Vec>): (r: seq<Vec>)
    requires |points| >= 2
    ensures |r| == |points| + 4
  {
    var a, b := points[0], points[1];
    var c, d := points[|points| - 1], points[|points| - 2];
    var front := Plus(a, Minus(a, b));
    var back := Plus(c, Minus(c, d));
    [Plus(front, Minus(a, b)), front] + points + [back, Plus(back, Minus(c, d))]
  }

  /** The four insertions, front, front, back, back, as the source makes them. */
  method Extend(points: seq<Vec>) returns (r: seq<Vec>)
    requires |points| >= 2
    ensures r == Extended(points)
  {
    var a, b := points[0], points[1];
    var c, d := points[|points| - 1], points[|points| - 2];
    r := points;
    r := [Plus(r[0], Minus(a, b))] + r;
    r := [Plus(r[0], Minus(a, b))] + r;
    r := r + [Plus(r[|r| - 1], Minus(c, d))];
    r := r + [Plus(r[|r| - 1], Minus(c, d))];
  }

  /**
   * The extended path holds the original in its middle, and its first three
   * and last three segments are each equal to the original's first and
   * last segment.
   */
  lemma ExtendedSpacing(points: seq<Vec>)
    requires |points| >= 2
    ensures var r := Extended(points); var n := |points|;
      r[2..n + 2] == points &&
      Minus(r[1], r[0]) == Minus(r[2], r[1]) == Minus(points[1], points[0]) &&
      Minus(r[n + 3], r[n + 2]) == Minus(r[n + 2], r[n + 1]) == Minus(points[n - 1], points[n - 2])
  {
    var r := Extended(points);
    var n := |points|;
    assert r[2..n + 2] == points;
    assert r[2] == points[0] && r[3] == points[1];
    assert r[n + 1] == points[n - 1] && r[n] == points[n - 2];
  }

  // ---------------------------------------------------------------------
  // The buffer

  /** The fill loop: one record per point, its normal the point's direction. */
  method Trace(points: seq<Vec>, normalize: Vec -> Vec) returns (positions: array<real>)
    ensures positions[..] == Records(Traced(points, normalize), |points|, |points|)
  {
    var count := |points|;
    ghost var src := Traced(points, normalize);
    positions := new real[7 * count];
    var p := 0;
    for n := 0 to count
      invariant p == 7 * n
      invariant positions[..p] == Records(src, count, n)
    {
      var guide := normalize(points[n]);
      assert Vertex(points[n], guide) == VertexOf(src, n);
      WriteRecord(positions, p, Vertex(points[n], guide), n, count);
      assert Records(src, count, n + 1) == Records(src, count, n) + Record(VertexOf(src, n), n, count);
      p := p + 7;
    }
    assert positions[..] == positions[..p];
  }

  /** The points the buffer is made of, from the turtle's path. */
  function Processed(path: seq<Point>, adjacency: bool, normalize: Vec -> Vec): (r: seq<Vec>)
    requires |path| >= 2
    ensures |r| == |path| + (if adjacency then 4 else 0)
  {
    var points := Scaled(path);
    var offset := Lerp(0.5, Lower(points, |points|), Upper(points, |points|));
    var onSphere := Recentred(points, offset, normalize);
    if adjacency then Extended(onSphere) else onSphere
  }

  /**
   * Everything after the drawing: the float points, their box, the
   * recentring, the adjacency points and the records.
   */
  method Build(path: seq<Point>, adjacency: bool, normalize: Vec -> Vec) returns (count: nat, positions: array<real>)
    requires |path| >= 2
    ensures count == |path| + (if adjacency then 4 else 0)
    ensures positions[..] == Records(Traced(Processed(path, adjacency, normalize), normalize), count, count)
  {
    var points := Scaled(path);
    var lo, hi := Corners(points);
    var offset := Lerp(0.5, lo, hi);
    points := Recentre(points, offset, normalize);
    if adjacency {
      points := Extend(points);
    }
    count := |points|;
    positions := Trace(points, normalize);
  }

  /**
   * `CreateHilbertCurve`: draws the six faces with the shared turtle, which
   * keeps the position and face it was left with, then turns the 383 points
   * into records, 387 with adjacency.
   */
  method CreateHilbertCurve(turtle: Turtle, adjacency: bool, normalize: Vec -> Vec)
    returns (count: nat, positions: array<real>)
    modifies turtle
    ensures turtle.Face == old(turtle.Face) + 5
    ensures |turtle.path| == 383
    ensures count == 383 + (if adjacency then 4 else 0)
    ensures positions[..] == Records(Traced(Processed(turtle.path, adjacency, normalize), normalize), count, count)
    ensures turtle.path == Drawing(old(turtle.P), old(turtle.Face), Lod).trail
  {
    ghost var p, face := turtle.P, turtle.Face;
    turtle.Draw(Lod);
    LodCount(p, face);
    count, positions := Build(turtle.path, adjacency, normalize);
  }
}
