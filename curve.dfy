/**
 * The turtle that draws a level-3 Hilbert curve on each of the six faces of
 * a cube. Positions are lattice points measured in segment lengths: every
 * turtle move goes one segment length along one axis of the current face.
 */
module Curve {

  /** A lattice point, in segment lengths. */
  datatype Point = Point(x: int, y: int, z: int)

  /** One turtle move within a face, in segment lengths. */
  datatype Step = Step(dx: int, dy: int)

  /** The four orientations of the Hilbert construction. */
  datatype Kind = U | D | C | A

  const Origin := Point(0, 0, 0)

  /** Level of detail of every face's curve. */
  const Lod := 3

  function Abs(n: int): nat
  {
    if n < 0 then -n else n
  }

  function Add(p: Point, v: Point): Point
  {
    Point(p.x + v.x, p.y + v.y, p.z + v.z)
  }

  function StepSum(s: Step, t: Step): Step
  {
    Step(s.dx + t.dx, s.dy + t.dy)
  }

  /**
   * Where the move (dx, dy) takes the turtle on cube face `face`. A face
   * number outside 0..5 matches no case of the turtle's switch: it does not
   * move.
   */
  function Displacement(face: int, s: Step): Point
  {
    match face
    case 0 => Point(s.dx, s.dy, 0)
    case 1 => Point(0, s.dy, s.dx)
    case 2 => Point(-s.dy, 0, s.dx)
    case 3 => Point(0, -s.dy, s.dx)
    case 4 => Point(s.dy, 0, s.dx)
    case 5 => Point(s.dy, s.dx, 0)
    case _ => Origin
  }

  /** A move of one segment length along one axis. */
  predicate UnitStep(s: Step)
  {
    Abs(s.dx) + Abs(s.dy) == 1
  }

  /** Two lattice points one segment length apart along one axis. */
  predicate Neighbours(p: Point, q: Point)
  {
    Abs(q.x - p.x) + Abs(q.y - p.y) + Abs(q.z - p.z) == 1
  }

  /** The points the turtle records while taking `steps` from `p` on `face`. */
  function Walk(p: Point, face: int, steps: seq<Step>): (points: seq<Point>)
    ensures |points| == |steps|
    decreases |steps|
  {
    if |steps| == 0 then []
    else
      var q := Add(p, Displacement(face, steps[0]));
      [q] + Walk(q, face, steps[1..])
  }

  /** Where the turtle stands after taking `steps` from `p` on `face`. */
  function Reach(p: Point, face: int, steps: seq<Step>): Point
    decreases |steps|
  {
    if |steps| == 0 then p
    else Reach(Add(p, Displacement(face, steps[0])), face, steps[1..])
  }

  /** The sum of the moves in `steps`. */
  function Net(steps: seq<Step>): Step
  {
    if |steps| == 0 then Step(0, 0)
    else StepSum(steps[0], Net(steps[1..]))
  }

  function Pow2(n: nat): (r: nat)
    ensures r >= 1
  {
    if n == 0 then 1 else 2 * Pow2(n - 1)
  }

  function Pow4(n: nat): (r: nat)
    ensures r >= 1
  {
    if n == 0 then 1 else 4 * Pow4(n - 1)
  }

  /**
   * How a Hilbert curve of one orientation is built from four curves of the
   * level below, joined by three single moves.
   */
  datatype Rule = Rule(first: Kind, s: Step, second: Kind, t: Step, third: Kind, u: Step, last: Kind)

  function RuleOf(k: Kind): Rule
  {
    match k
    case U => Rule(D, Step(0, -1), U, Step(1, 0), U, Step(0, 1), C)
    case D => Rule(U, Step(1, 0), D, Step(0, -1), D, Step(-1, 0), A)
    case C => Rule(A, Step(-1, 0), C, Step(0, 1), C, Step(1, 0), U)
    case A => Rule(C, Step(0, 1), A, Step(-1, 0), A, Step(0, -1), D)
  }

  /** The moves of the Hilbert curve of orientation `k` and level `level`. */
  function Moves(k: Kind, level: nat): seq<Step>
    decreases level
  {
    if level == 0 then []
    else
      var r := RuleOf(k);
      Join(Moves(r.first, level - 1), r.s, Moves(r.second, level - 1), r.t,
           Moves(r.third, level - 1), r.u, Moves(r.last, level - 1))
  }

  /** Four runs of moves joined by three single moves. */
  function Join(a: seq<Step>, s: Step, b: seq<Step>, t: Step, c: seq<Step>, u: Step, d: seq<Step>): seq<Step>
  {
    a + ([s] + (b + ([t] + (c + ([u] + d)))))
  }

  /** The turtle's position together with the points recorded so far. */
  datatype Pen = Pen(at: Point, trail: seq<Point>)

  /** One move on `face`: go by the face's image of `s` and record the new position. */
  function Stroke(pen: Pen, face: int, s: Step): Pen
  {
    var q := Add(pen.at, Displacement(face, s));
    Pen(q, pen.trail + [q])
  }

  /**
   * The drawing routines as they run: the curve of orientation `k` and level
   * `level` drawn on `face`, one sub-curve and one joining move at a time.
   */
  function Sketch(pen: Pen, face: int, k: Kind, level: nat): Pen
    decreases level
  {
    if level == 0 then pen
    else
      var r := RuleOf(k);
      var l := level - 1;
      var pen1 := Stroke(Sketch(pen, face, r.first, l), face, r.s);
      var pen2 := Stroke(Sketch(pen1, face, r.second, l), face, r.t);
      var pen3 := Stroke(Sketch(pen2, face, r.third, l), face, r.u);
      Sketch(pen3, face, r.last, l)
  }

  /**
   * One drawing as the routine runs it, from `p` on face `face` with an
   * emptied path: a U curve, then five times a face-changing move followed
   * by the next face's curve (U, C, C, C, D).
   */
  function Drawing(p: Point, face: int, level: nat): Pen
  {
    var pen1 := Sketch(Pen(p, []), face, U, level);
    var pen2 := Sketch(Stroke(pen1, face + 1, Step(1, 0)), face + 1, U, level);
    var pen3 := Sketch(Stroke(pen2, face + 2, Step(0, 1)), face + 2, C, level);
    var pen4 := Sketch(Stroke(pen3, face + 3, Step(0, 1)), face + 3, C, level);
    var pen5 := Sketch(Stroke(pen4, face + 4, Step(0, 1)), face + 4, C, level);
    Sketch(Stroke(pen5, face + 5, Step(1, 0)), face + 5, D, level)
  }

  /** The last recorded point, or the start when nothing was recorded. */
  function LastOr(start: Point, points: seq<Point>): Point
  {
    if |points| == 0 then start else points[|points| - 1]
  }

  /** The point recorded before `points[i]`, the start for the first one. */
  function Before(start: Point, points: seq<Point>, i: nat): Point
    requires i < |points|
  {
    if i == 0 then start else points[i - 1]
  }

  /** Every recorded point lies one segment length from the one before it. */
  predicate Connected(start: Point, points: seq<Point>)
  {
    forall i :: 0 <= i < |points| ==> Neighbours(Before(start, points, i), points[i])
  }

  /** Every recorded point is the start itself: the path has no length. */
  predicate Stalled(start: Point, points: seq<Point>)
  {
    forall i :: 0 <= i < |points| ==> points[i] == start
  }

  /**
   * The points of one drawing, face by face: the walk of a U curve on
   * `face`, then on each following face the walk of the joining move and
   * that face's curve.
   */
  function DrawingPath(p: Point, face: int, level: nat): seq<Point>
  {
    var p1 := Reach(p, face, Moves(U, level));
    var p2 := Reach(p1, face + 1, [Step(1, 0)] + Moves(U, level));
    var p3 := Reach(p2, face + 2, [Step(0, 1)] + Moves(C, level));
    var p4 := Reach(p3, face + 3, [Step(0, 1)] + Moves(C, level));
    var p5 := Reach(p4, face + 4, [Step(0, 1)] + Moves(C, level));
    Walk(p, face, Moves(U, level))
      + Walk(p1, face + 1, [Step(1, 0)] + Moves(U, level))
      + Walk(p2, face + 2, [Step(0, 1)] + Moves(C, level))
      + Walk(p3, face + 3, [Step(0, 1)] + Moves(C, level))
      + Walk(p4, face + 4, [Step(0, 1)] + Moves(C, level))
      + Walk(p5, face + 5, [Step(1, 0)] + Moves(D, level))
  }

  // ----- walks -----

  /** Walking two runs of moves records the first run's points, then the second's. */
  lemma {:induction false} WalkAppend(p: Point, face: int, a: seq<Step>, b: seq<Step>)
    ensures Walk(p, face, a + b) == Walk(p, face, a) + Walk(Reach(p, face, a), face, b)
    ensures Reach(p, face, a + b) == Reach(Reach(p, face, a), face, b)
    decreases |a|
  {
    if |a| > 0 {
      var q := Add(p, Displacement(face, a[0]));
      assert (a + b)[1..] == a[1..] + b;
      WalkAppend(q, face, a[1..], b);
    } else {
      assert a + b == b;
    }
  }

  /** A run of moves built from four sub-runs joined by single moves, walked piece by piece. */
  lemma {:induction false} SevenPieces(p: Point, face: int, a: seq<Step>, s: Step, b: seq<Step>, t: Step,
                    c: seq<Step>, u: Step, d: seq<Step>)
    ensures
      var q1 := Add(Reach(p, face, a), Displacement(face, s));
      var q2 := Add(Reach(q1, face, b), Displacement(face, t));
      var q3 := Add(Reach(q2, face, c), Displacement(face, u));
      && Walk(p, face, Join(a, s, b, t, c, u, d))
         == Walk(p, face, a) + ([q1] + (Walk(q1, face, b) + ([q2] + (Walk(q2, face, c) + ([q3] + Walk(q3, face, d))))))
      && Reach(p, face, Join(a, s, b, t, c, u, d)) == Reach(q3, face, d)
  {
    var q1 := Add(Reach(p, face, a), Displacement(face, s));
    var q2 := Add(Reach(q1, face, b), Displacement(face, t));
    WalkAppend(p, face, a, [s] + (b + ([t] + (c + ([u] + d)))));
    WalkCons(Reach(p, face, a), face, s, b + ([t] + (c + ([u] + d))));
    WalkAppend(q1, face, b, [t] + (c + ([u] + d)));
    WalkCons(Reach(q1, face, b), face, t, c + ([u] + d));
    WalkAppend(q2, face, c, [u] + d);
    WalkCons(Reach(q2, face, c), face, u, d);
  }

  lemma {:induction false} Reassociate<T>(x0: seq<T>, x1: seq<T>, x2: seq<T>, x3: seq<T>, x4: seq<T>, x5: seq<T>, x6: seq<T>, x7: seq<T>)
    ensures x0 + (x1 + (x2 + (x3 + (x4 + (x5 + (x6 + x7)))))) == x0 + x1 + x2 + x3 + x4 + x5 + x6 + x7
  {
  }

  /**
   * The drawing routines record exactly the walk of the curve's list of
   * moves, after what was recorded before, and end where that walk ends.
   */
  lemma {:induction false} SketchIsWalk(pen: Pen, face: int, k: Kind, level: nat)
    ensures Sketch(pen, face, k, level)
         == Pen(Reach(pen.at, face, Moves(k, level)), pen.trail + Walk(pen.at, face, Moves(k, level)))
    decreases level
  {
    if level > 0 {
      var r := RuleOf(k);
      var l := level - 1;
      var p := pen.at;
      var a, b, c, d := Moves(r.first, l), Moves(r.second, l), Moves(r.third, l), Moves(r.last, l);
      SketchIsWalk(pen, face, r.first, l);
      var pen1 := StrokeAfter(pen, face, r.first, l, r.s);
      SketchIsWalk(pen1, face, r.second, l);
      var pen2 := StrokeAfter(pen1, face, r.second, l, r.t);
      SketchIsWalk(pen2, face, r.third, l);
      var pen3 := StrokeAfter(pen2, face, r.third, l, r.u);
      SketchIsWalk(pen3, face, r.last, l);
      SketchUnfold(pen, face, k, l);
      MovesUnfold(k, l);
      SevenPieces(p, face, a, r.s, b, r.t, c, r.u, d);
      Reassociate(pen.trail, Walk(p, face, a), [pen1.at], Walk(pen1.at, face, b), [pen2.at],
                  Walk(pen2.at, face, c), [pen3.at], Walk(pen3.at, face, d));
    }
  }

  /** One level of drawing: the four sub-curves, with a joining move after each of the first three. */
  lemma SketchUnfold(pen: Pen, face: int, k: Kind, l: nat)
    ensures var r := RuleOf(k);
      Sketch(pen, face, k, l + 1)
      == Sketch(Stroke(Sketch(Stroke(Sketch(Stroke(Sketch(pen, face, r.first, l), face, r.s),
                                            face, r.second, l), face, r.t),
                              face, r.third, l), face, r.u),
                face, r.last, l)
  {
  }

  /** One level of the list of moves: the four sub-curves' moves joined by three single moves. */
  lemma MovesUnfold(k: Kind, l: nat)
    ensures var r := RuleOf(k);
      Moves(k, l + 1) == Join(Moves(r.first, l), r.s, Moves(r.second, l), r.t, Moves(r.third, l), r.u, Moves(r.last, l))
  {
  }

  /** A sub-curve drawn as its walk, followed by one joining move. */
  lemma {:induction false} StrokeAfter(pen: Pen, face: int, k: Kind, level: nat, s: Step) returns (next: Pen)
    requires Sketch(pen, face, k, level)
          == Pen(Reach(pen.at, face, Moves(k, level)), pen.trail + Walk(pen.at, face, Moves(k, level)))
    ensures next == Stroke(Sketch(pen, face, k, level), face, s)
    ensures next.at == Add(Reach(pen.at, face, Moves(k, level)), Displacement(face, s))
    ensures next.trail == pen.trail + Walk(pen.at, face, Moves(k, level)) + [next.at]
  {
    next := Stroke(Sketch(pen, face, k, level), face, s);
  }

  /** A face-changing move followed by a curve, drawn as one walk on the new face. */
  lemma {:induction false} LegIsWalk(pen: Pen, face: int, s: Step, k: Kind, level: nat)
    ensures Sketch(Stroke(pen, face, s), face, k, level)
         == Pen(Reach(pen.at, face, [s] + Moves(k, level)), pen.trail + Walk(pen.at, face, [s] + Moves(k, level)))
  {
    var m := Moves(k, level);
    var q := Add(pen.at, Displacement(face, s));
    SketchIsWalk(Stroke(pen, face, s), face, k, level);
    WalkCons(pen.at, face, s, m);
    assert pen.trail + [q] + Walk(q, face, m) == pen.trail + ([q] + Walk(q, face, m));
  }

  /** The drawing routine records exactly the face-by-face walks. */
  lemma {:induction false} DrawingIsPath(p: Point, face: int, level: nat)
    ensures Drawing(p, face, level).trail == DrawingPath(p, face, level)
  {
    var p1 := Reach(p, face, Moves(U, level));
    var p2 := Reach(p1, face + 1, [Step(1, 0)] + Moves(U, level));
    var p3 := Reach(p2, face + 2, [Step(0, 1)] + Moves(C, level));
    var p4 := Reach(p3, face + 3, [Step(0, 1)] + Moves(C, level));
    var p5 := Reach(p4, face + 4, [Step(0, 1)] + Moves(C, level));
    var pen1 := Sketch(Pen(p, []), face, U, level);
    SketchIsWalk(Pen(p, []), face, U, level);
    assert pen1 == Pen(p1, Walk(p, face, Moves(U, level)));
    var pen2 := Sketch(Stroke(pen1, face + 1, Step(1, 0)), face + 1, U, level);
    LegIsWalk(pen1, face + 1, Step(1, 0), U, level);
    var pen3 := Sketch(Stroke(pen2, face + 2, Step(0, 1)), face + 2, C, level);
    LegIsWalk(pen2, face + 2, Step(0, 1), C, level);
    var pen4 := Sketch(Stroke(pen3, face + 3, Step(0, 1)), face + 3, C, level);
    LegIsWalk(pen3, face + 3, Step(0, 1), C, level);
    var pen5 := Sketch(Stroke(pen4, face + 4, Step(0, 1)), face + 4, C, level);
    LegIsWalk(pen4, face + 4, Step(0, 1), C, level);
    LegIsWalk(pen5, face + 5, Step(1, 0), D, level);
  }

  /** A run that starts with a single move records that move's point first. */
  lemma {:induction false} WalkCons(p: Point, face: int, s: Step, rest: seq<Step>)
    ensures Walk(p, face, [s] + rest) == [Add(p, Displacement(face, s))] + Walk(Add(p, Displacement(face, s)), face, rest)
    ensures Reach(p, face, [s] + rest) == Reach(Add(p, Displacement(face, s)), face, rest)
  {
    assert ([s] + rest)[1..] == rest;
  }

  /** The last point a walk records is where the turtle ends up. */
  lemma {:induction false} WalkLast(p: Point, face: int, steps: seq<Step>)
    ensures LastOr(p, Walk(p, face, steps)) == Reach(p, face, steps)
    decreases |steps|
  {
    if |steps| > 0 {
      WalkLast(Add(p, Displacement(face, steps[0])), face, steps[1..]);
    }
  }

  /** The turtle ends up displaced by the face's image of the sum of its moves. */
  lemma {:induction false} ReachIsNet(p: Point, face: int, steps: seq<Step>)
    ensures Reach(p, face, steps) == Add(p, Displacement(face, Net(steps)))
    decreases |steps|
  {
    if |steps| > 0 {
      var q := Add(p, Displacement(face, steps[0]));
      ReachIsNet(q, face, steps[1..]);
      DisplacementSum(p, face, steps[0], Net(steps[1..]));
    }
  }

  /** Each face maps moves to displacements linearly: two moves add up to their sum. */
  lemma DisplacementSum(p: Point, face: int, s: Step, t: Step)
    ensures Add(Add(p, Displacement(face, s)), Displacement(face, t)) == Add(p, Displacement(face, StepSum(s, t)))
  {
  }

  /** On a cube face, a move of one segment length along an axis stays one. */
  lemma {:induction false} DisplacementUnit(face: int, s: Step)
    requires 0 <= face <= 5 && UnitStep(s)
    ensures Neighbours(Origin, Displacement(face, s))
  {
  }

  /** Off the six faces a walk records only its start point and goes nowhere. */
  lemma {:induction false} WalkStill(p: Point, face: int, steps: seq<Step>)
    requires !(0 <= face <= 5)
    ensures Stalled(p, Walk(p, face, steps))
    ensures Reach(p, face, steps) == p
    decreases |steps|
  {
    if |steps| > 0 {
      assert Add(p, Displacement(face, steps[0])) == p;
      WalkStill(p, face, steps[1..]);
    }
  }

  /** On a cube face, a walk of unit moves is a connected path of lattice neighbours. */
  lemma {:induction false} WalkConnected(p: Point, face: int, steps: seq<Step>)
    requires 0 <= face <= 5
    requires AllUnit(steps)
    ensures Connected(p, Walk(p, face, steps))
    decreases |steps|
  {
    if |steps| > 0 {
      var q := Add(p, Displacement(face, steps[0]));
      DisplacementUnit(face, steps[0]);
      WalkConnected(q, face, steps[1..]);
      var w := Walk(p, face, steps);
      assert w == [q] + Walk(q, face, steps[1..]);
      forall i | 0 <= i < |w|
        ensures Neighbours(Before(p, w, i), w[i])
      {
        if i > 0 {
          assert Before(p, w, i) == Before(q, Walk(q, face, steps[1..]), i - 1);
        }
      }
    }
  }

  /** Two connected paths, the second begun where the first ends, join into one. */
  lemma {:induction false} ConnectedAppend(start: Point, a: seq<Point>, b: seq<Point>)
    requires Connected(start, a) && Connected(LastOr(start, a), b)
    ensures Connected(start, a + b)
  {
    var w := a + b;
    forall i | 0 <= i < |w|
      ensures Neighbours(Before(start, w, i), w[i])
    {
      if i < |a| {
        assert Before(start, w, i) == Before(start, a, i);
      } else {
        assert Before(start, w, i) == Before(LastOr(start, a), b, i - |a|);
      }
    }
  }

  // ----- the Hilbert construction -----

  /** A Hilbert curve of level `level` has 4^level - 1 moves. */
  lemma {:induction false} MovesCount(k: Kind, level: nat)
    ensures |Moves(k, level)| == Pow4(level) - 1
    decreases level
  {
    if level > 0 {
      var l := level - 1;
      MovesCount(U, l);
      MovesCount(D, l);
      MovesCount(C, l);
      MovesCount(A, l);
      MovesUnfold(k, l);
    }
  }

  /** Every move in `steps` is one segment length along one axis. */
  predicate AllUnit(steps: seq<Step>)
  {
    forall i :: 0 <= i < |steps| ==> UnitStep(steps[i])
  }

  lemma {:induction false} UnitJoin(a: seq<Step>, s: Step, b: seq<Step>, t: Step, c: seq<Step>, u: Step, d: seq<Step>)
    requires AllUnit(a) && AllUnit(b) && AllUnit(c) && AllUnit(d)
    requires UnitStep(s) && UnitStep(t) && UnitStep(u)
    ensures AllUnit(Join(a, s, b, t, c, u, d))
  {
  }

  /** Every move of a Hilbert curve is one segment length along one axis. */
  lemma {:induction false} MovesUnit(k: Kind, level: nat)
    ensures AllUnit(Moves(k, level))
    decreases level
  {
    if level > 0 {
      var l := level - 1;
      MovesUnit(U, l);
      MovesUnit(D, l);
      MovesUnit(C, l);
      MovesUnit(A, l);
      var r := RuleOf(k);
      MovesUnfold(k, l);
      UnitJoin(Moves(r.first, l), r.s, Moves(r.second, l), r.t, Moves(r.third, l), r.u, Moves(r.last, l));
    }
  }

  lemma {:induction false} NetAppend(a: seq<Step>, b: seq<Step>)
    ensures Net(a + b) == StepSum(Net(a), Net(b))
    decreases |a|
  {
    if |a| > 0 {
      assert (a + b)[1..] == a[1..] + b;
      NetAppend(a[1..], b);
    } else {
      assert a + b == b;
    }
  }

  /** How far a Hilbert curve of level n takes the turtle: 2^n - 1 segment lengths along one axis. */
  function Span(k: Kind, level: nat): Step
  {
    match k
    case U => Step(Pow2(level) - 1, 0)
    case D => Step(0, 1 - Pow2(level))
    case C => Step(0, Pow2(level) - 1)
    case A => Step(1 - Pow2(level), 0)
  }

  /**
   * A Hilbert curve of level n ends 2^n - 1 segment lengths from its start,
   * along +x for U, -y for D, +y for C and -x for A.
   */
  lemma {:induction false} NetDisplacement(k: Kind, level: nat)
    ensures Net(Moves(k, level)) == Span(k, level)
    decreases level
  {
    if level > 0 {
      var r := RuleOf(k);
      var l := level - 1;
      NetDisplacement(r.first, l);
      NetDisplacement(r.second, l);
      NetDisplacement(r.third, l);
      NetDisplacement(r.last, l);
      NetUnfold(k, l);
      SpanRule(k, l);
    }
  }

  /** One level of the construction adds up its four sub-curves and three joining moves. */
  lemma {:induction false} NetUnfold(k: Kind, l: nat)
    ensures var r := RuleOf(k);
      Net(Moves(k, l + 1))
      == StepSum(Net(Moves(r.first, l)), StepSum(r.s, StepSum(Net(Moves(r.second, l)),
           StepSum(r.t, StepSum(Net(Moves(r.third, l)), StepSum(r.u, Net(Moves(r.last, l))))))))
  {
    var r := RuleOf(k);
    var a, b, c, d := Moves(r.first, l), Moves(r.second, l), Moves(r.third, l), Moves(r.last, l);
    MovesUnfold(k, l);
    NetPieces(a, r.s, b, r.t, c, r.u, d);
  }

  /** The spans obey the same rule: the sub-curves' spans and the joining moves add up. */
  lemma {:induction false} SpanRule(k: Kind, l: nat)
    ensures var r := RuleOf(k);
      Span(k, l + 1)
      == StepSum(Span(r.first, l), StepSum(r.s, StepSum(Span(r.second, l),
           StepSum(r.t, StepSum(Span(r.third, l), StepSum(r.u, Span(r.last, l)))))))
  {
    assert Pow2(l + 1) == 2 * Pow2(l);
  }

  lemma {:induction false} NetPieces(a: seq<Step>, s: Step, b: seq<Step>, t: Step, c: seq<Step>, u: Step, d: seq<Step>)
    ensures Net(Join(a, s, b, t, c, u, d))
         == StepSum(Net(a), StepSum(s, StepSum(Net(b), StepSum(t, StepSum(Net(c), StepSum(u, Net(d)))))))
  {
    NetAppend(a, [s] + (b + ([t] + (c + ([u] + d)))));
    NetAppend([s], b + ([t] + (c + ([u] + d))));
    NetAppend(b, [t] + (c + ([u] + d)));
    NetAppend([t], c + ([u] + d));
    NetAppend(c, [u] + d);
    NetAppend([u], d);
    assert Net([s]) == s && Net([t]) == t && Net([u]) == u;
  }

  // ----- one drawing -----

  /** A drawing records 6 * (4^level - 1) + 5 points. */
  lemma {:induction false} DrawingCount(p: Point, face: int, level: nat)
    ensures |Drawing(p, face, level).trail| == 6 * (Pow4(level) - 1) + 5
  {
    DrawingIsPath(p, face, level);
    PathCount(p, face, level);
  }

  lemma PowLod()
    ensures Pow4(Lod) == 64
  {
  }

  /** At the level the curve is built with, a drawing records 383 points. */
  lemma {:induction false} LodCount(p: Point, face: int)
    ensures |Drawing(p, face, Lod).trail| == 383
  {
    PowLod();
    DrawingCount(p, face, Lod);
  }

  lemma {:induction false} PathCount(p: Point, face: int, level: nat)
    ensures |DrawingPath(p, face, level)| == 6 * (Pow4(level) - 1) + 5
  {
    MovesCount(U, level);
    MovesCount(C, level);
    MovesCount(D, level);
  }

  /** A walk on one face, begun with a single joining move, of unit moves throughout. */
  lemma {:induction false} LegConnected(p: Point, face: int, s: Step, k: Kind, level: nat)
    requires 0 <= face <= 5 && UnitStep(s)
    ensures Connected(p, Walk(p, face, [s] + Moves(k, level)))
    ensures LastOr(p, Walk(p, face, [s] + Moves(k, level))) == Reach(p, face, [s] + Moves(k, level))
  {
    MovesUnit(k, level);
    var steps := [s] + Moves(k, level);
    assert forall i :: 1 <= i < |steps| ==> steps[i] == Moves(k, level)[i - 1];
    WalkConnected(p, face, steps);
    WalkLast(p, face, steps);
  }

  /**
   * Drawn from face 0, the curve crosses faces 0 to 5 and every recorded point
   * lies one segment length from the one before it.
   */
  lemma {:induction false} FirstDrawingConnected(p: Point, level: nat)
    ensures Connected(p, Drawing(p, 0, level).trail)
  {
    DrawingIsPath(p, 0, level);
    var w1 := Walk(p, 0, Moves(U, level));
    var p1 := Reach(p, 0, Moves(U, level));
    var w2 := Walk(p1, 1, [Step(1, 0)] + Moves(U, level));
    var p2 := Reach(p1, 1, [Step(1, 0)] + Moves(U, level));
    var w3 := Walk(p2, 2, [Step(0, 1)] + Moves(C, level));
    var p3 := Reach(p2, 2, [Step(0, 1)] + Moves(C, level));
    var w4 := Walk(p3, 3, [Step(0, 1)] + Moves(C, level));
    var p4 := Reach(p3, 3, [Step(0, 1)] + Moves(C, level));
    var w5 := Walk(p4, 4, [Step(0, 1)] + Moves(C, level));
    var p5 := Reach(p4, 4, [Step(0, 1)] + Moves(C, level));
    var w6 := Walk(p5, 5, [Step(1, 0)] + Moves(D, level));
    MovesUnit(U, level);
    WalkConnected(p, 0, Moves(U, level));
    WalkLast(p, 0, Moves(U, level));
    LegConnected(p1, 1, Step(1, 0), U, level);
    LegConnected(p2, 2, Step(0, 1), C, level);
    LegConnected(p3, 3, Step(0, 1), C, level);
    LegConnected(p4, 4, Step(0, 1), C, level);
    LegConnected(p5, 5, Step(1, 0), D, level);
    LastAppend(p, w1, w2);
    ConnectedAppend(p, w1, w2);
    LastAppend(p, w1 + w2, w3);
    ConnectedAppend(p, w1 + w2, w3);
    LastAppend(p, w1 + w2 + w3, w4);
    ConnectedAppend(p, w1 + w2 + w3, w4);
    LastAppend(p, w1 + w2 + w3 + w4, w5);
    ConnectedAppend(p, w1 + w2 + w3 + w4, w5);
    ConnectedAppend(p, w1 + w2 + w3 + w4 + w5, w6);
  }

  lemma {:induction false} LastAppend(start: Point, a: seq<Point>, b: seq<Point>)
    requires |b| > 0
    ensures LastOr(start, a + b) == LastOr(LastOr(start, a), b)
  {
  }

  /**
   * The turtle's face number is never reset, so a drawing begun on face 5
   * (where a first drawing leaves it) draws only its first curve: every
   * point after the first 4^level - 1 is that curve's end point again.
   */
  lemma {:induction false} SecondDrawingStalls(p: Point, level: nat)
    ensures
      var d := Drawing(p, 5, level).trail;
      var n := Pow4(level) - 1;
      && n <= |d|
      && d[..n] == Walk(p, 5, Moves(U, level))
      && Stalled(Reach(p, 5, Moves(U, level)), d[n..])
  {
    DrawingIsPath(p, 5, level);
    PathStalls(p, level);
  }

  lemma {:induction false} PathStalls(p: Point, level: nat)
    ensures
      var d := DrawingPath(p, 5, level);
      var n := Pow4(level) - 1;
      && n <= |d|
      && d[..n] == Walk(p, 5, Moves(U, level))
      && Stalled(Reach(p, 5, Moves(U, level)), d[n..])
  {
    var p1 := Reach(p, 5, Moves(U, level));
    var w1 := Walk(p, 5, Moves(U, level));
    var w2 := Walk(p1, 6, [Step(1, 0)] + Moves(U, level));
    WalkStill(p1, 6, [Step(1, 0)] + Moves(U, level));
    var w3 := Walk(p1, 7, [Step(0, 1)] + Moves(C, level));
    WalkStill(p1, 7, [Step(0, 1)] + Moves(C, level));
    var w4 := Walk(p1, 8, [Step(0, 1)] + Moves(C, level));
    WalkStill(p1, 8, [Step(0, 1)] + Moves(C, level));
    var w5 := Walk(p1, 9, [Step(0, 1)] + Moves(C, level));
    WalkStill(p1, 9, [Step(0, 1)] + Moves(C, level));
    var w6 := Walk(p1, 10, [Step(1, 0)] + Moves(D, level));
    WalkStill(p1, 10, [Step(1, 0)] + Moves(D, level));
    MovesCount(U, level);
    assert DrawingPath(p, 5, level) == w1 + w2 + w3 + w4 + w5 + w6;
    var rest := w2 + w3 + w4 + w5 + w6;
    StalledAppend(p1, w2, w3);
    StalledAppend(p1, w2 + w3, w4);
    StalledAppend(p1, w2 + w3 + w4, w5);
    StalledAppend(p1, w2 + w3 + w4 + w5, w6);
    Assoc6(w1, w2, w3, w4, w5, w6);
    assert (w1 + rest)[..|w1|] == w1 && (w1 + rest)[|w1|..] == rest;
  }

  /** Two paths that stay at one point make one that does. */
  lemma StalledAppend(start: Point, a: seq<Point>, b: seq<Point>)
    requires Stalled(start, a) && Stalled(start, b)
    ensures Stalled(start, a + b)
  {
  }

  lemma Assoc6<T>(x0: seq<T>, x1: seq<T>, x2: seq<T>, x3: seq<T>, x4: seq<T>, x5: seq<T>)
    ensures x0 + x1 + x2 + x3 + x4 + x5 == x0 + (x1 + x2 + x3 + x4 + x5)
  {
  }

  /**
   * The turtle, and the path its moves are recorded in (the module's one
   * shared point list, which every drawing clears and refills).
   */
  class Turtle {
    var P: Point
    var Face: int
    var path: seq<Point>

    /** A turtle in static storage starts zeroed: at the origin, on face 0. */
    constructor()
      ensures P == Origin && Face == 0 && path == []
    {
      P := Origin;
      Face := 0;
      path := [];
    }

    /**
     * One move: optionally step to the next face first, then move by the
     * face's image of (dx, dy) and record the new position.
     */
    method Move(dx: int, dy: int, changeFace: bool)
      modifies this
      ensures Face == old(Face) + (if changeFace then 1 else 0)
      ensures Pen(P, path) == Stroke(Pen(old(P), old(path)), Face, Step(dx, dy))
    {
      if changeFace {
        Face := Face + 1;
      }
      P := Add(P, Displacement(Face, Step(dx, dy)));
      path := path + [P];
    }

    /** Draws the U curve of level `level` on the current face. */
    method HilbertU(level: nat)
      modifies this
      ensures Face == old(Face)
      ensures Pen(P, path) == Sketch(Pen(old(P), old(path)), Face, U, level)
      decreases level
    {
      if level == 0 {
        return;
      }
      HilbertD(level - 1);
      Move(0, -1, false);
      HilbertU(level - 1);
      Move(1, 0, false);
      HilbertU(level - 1);
      Move(0, 1, false);
      HilbertC(level - 1);
    }

    /** Draws the D curve of level `level` on the current face. */
    method HilbertD(level: nat)
      modifies this
      ensures Face == old(Face)
      ensures Pen(P, path) == Sketch(Pen(old(P), old(path)), Face, D, level)
      decreases level
    {
      if level == 0 {
        return;
      }
      HilbertU(level - 1);
      Move(1, 0, false);
      HilbertD(level - 1);
      Move(0, -1, false);
      HilbertD(level - 1);
      Move(-1, 0, false);
      HilbertA(level - 1);
    }

    /** Draws the C curve of level `level` on the current face. */
    method HilbertC(level: nat)
      modifies this
      ensures Face == old(Face)
      ensures Pen(P, path) == Sketch(Pen(old(P), old(path)), Face, C, level)
      decreases level
    {
      if level == 0 {
        return;
      }
      HilbertA(level - 1);
      Move(-1, 0, false);
      HilbertC(level - 1);
      Move(0, 1, false);
      HilbertC(level - 1);
      Move(1, 0, false);
      HilbertU(level - 1);
    }

    /** Draws the A curve of level `level` on the current face. */
    method HilbertA(level: nat)
      modifies this
      ensures Face == old(Face)
      ensures Pen(P, path) == Sketch(Pen(old(P), old(path)), Face, A, level)
      decreases level
    {
      if level == 0 {
        return;
      }
      HilbertC(level - 1);
      Move(0, 1, false);
      HilbertA(level - 1);
      Move(-1, 0, false);
      HilbertA(level - 1);
      Move(0, -1, false);
      HilbertD(level - 1);
    }

    /**
     * The drawing part of creating the Hilbert curve: clear the path, then
     * draw a level-3 curve on each face, moving to the next face between them.
     */
    method Draw(level: nat)
      modifies this
      ensures Face == old(Face) + 5
      ensures Pen(P, path) == Drawing(old(P), old(Face), level)
    {
      path := [];
      HilbertU(level);
      Leg(1, 0, U, level);
      Leg(0, 1, C, level);
      Leg(0, 1, C, level);
      Leg(0, 1, C, level);
      Leg(1, 0, D, level);
    }

    /** A move onto the next face followed by the curve of orientation `k` drawn there. */
    method Leg(dx: int, dy: int, k: Kind, level: nat)
      modifies this
      ensures Face == old(Face) + 1
      ensures Pen(P, path) == Sketch(Stroke(Pen(old(P), old(path)), Face, Step(dx, dy)), Face, k, level)
    {
      Move(dx, dy, true);
      match k {
        case U => HilbertU(level);
        case D => HilbertD(level);
        case C => HilbertC(level);
        case A => HilbertA(level);
      }
    }

    /**
     * The drawing with the face number reset along with the path, so that
     * every drawing, not only the first, crosses faces 0 to 5 as one
     * connected path of `6 * (4^level - 1) + 5` points.
     */
    method DrawFromFirstFace(level: nat)
      modifies this
      ensures Face == 5
      ensures path == Drawing(old(P), 0, level).trail
      ensures |path| == 6 * (Pow4(level) - 1) + 5
      ensures Connected(old(P), path)
    {
      ghost var p := P;
      Face := 0;
      Draw(level);
      DrawingCount(p, 0, level);
      FirstDrawingConnected(p, level);
    }
  }
}
