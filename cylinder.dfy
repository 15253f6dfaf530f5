/**
 * The tube mesh of the cylinder demo (`CreateCylinder`): a ring of
 * `slices` vertices per stack, `stacks` stacks along the X axis, and two
 * triangles per cell between consecutive stacks.
 *
 * The buffers are filled through a running destination pointer, so each
 * is an array here and the pointer is an index `p` into it.  Floating
 * point is modelled by `real`, and `cos`/`sin` are parameters.
 */
module Cylinder {
  import opened Grid
  import opened Wrappers
  import opened Adjacency

  // ---------------------------------------------------------------------
  // Counts

  /** `vertCount = slices * stacks`. */
  function VertCount(stacks: nat, slices: nat): nat
  {
    slices * stacks
  }

  /** `faceCount = slices * (stacks - 1) * 2`. */
  function FaceCount(stacks: nat, slices: nat): nat
    requires stacks >= 1
  {
    slices * (stacks - 1) * 2
  }

  // ---------------------------------------------------------------------
  // Triangle connectivity

  /**
   * The six indices one cell writes: with `a = slice`, `b = slice + slices`,
   * `c = (slice + 1) % slices + slices` and `d = (slice + 1) % slices`,
   * the triangles `(n+c, n+b, n+a)` and `(n+a, n+d, n+c)`.
   */
  function CellIndices(n: nat, slices: nat, slice: nat): seq<int>
    requires slice < slices
  {
    var a, b := slice, slice + slices;
    var c, d := Succ(slice, slices) + slices, Succ(slice, slices);
    [n + c, n + b, n + a, n + a, n + d, n + c]
  }

  /** The indices of the first `m` cells of the ring of cells whose first vertex is `n`. */
  function RingFaces(n: nat, slices: nat, m: nat): (r: seq<int>)
    requires m <= slices
    ensures |r| == 6 * m
  {
    if m == 0 then [] else RingFaces(n, slices, m - 1) + CellIndices(n, slices, m - 1)
  }

  /** The indices of the first `rows` rings of cells. */
  function TubeFaces(slices: nat, rows: nat): (r: seq<int>)
    ensures |r| == 6 * RowStart(rows, slices)
  {
    if rows == 0 then [] else TubeFaces(slices, rows - 1) + RingFaces(RowStart(rows - 1, slices), slices, slices)
  }

  lemma {:induction false} RingAt(n: nat, slices: nat, m: nat, j: nat, i: nat)
    requires j < m <= slices && i < 6
    ensures |RingFaces(n, slices, m)| == 6 * m
    ensures RingFaces(n, slices, m)[6 * j + i] == CellIndices(n, slices, j)[i]
  {
    if j < m - 1 {
      RingAt(n, slices, m - 1, j, i);
    } else if m > 1 {
      RingAt(n, slices, m - 1, 0, 0);
    }
  }

  /**
   * The inner `for slice` loop: the indices of one ring of cells, written
   * at `p`, leaving the rest of the buffer as it was.
   */
  method WriteRing(dest: array<int>, p: nat, n: nat, slices: nat)
    requires p + 6 * slices <= dest.Length
    modifies dest
    ensures forall k :: 0 <= k < dest.Length && !(p <= k < p + 6 * slices) ==> dest[k] == old(dest[k])
    ensures forall k :: p <= k < p + 6 * slices ==> dest[k] == RingFaces(n, slices, slices)[k - p]
  {
    ghost var ring := RingFaces(n, slices, slices);
    var q := p;
    for slice := 0 to slices
      invariant q == p + 6 * slice
      invariant forall k :: 0 <= k < dest.Length && !(p <= k < q) ==> dest[k] == old(dest[k])
      invariant forall k :: p <= k < q ==> dest[k] == ring[k - p]
    {
      var a := slice;
      var b := slice + slices;
      var c := ((slice + 1) % slices) + slices;
      var d := (slice + 1) % slices;
      SuccMod(slice, slices);
      RingAt(n, slices, slices, slice, 0);
      RingAt(n, slices, slices, slice, 1);
      RingAt(n, slices, slices, slice, 2);
      RingAt(n, slices, slices, slice, 3);
      RingAt(n, slices, slices, slice, 4);
      RingAt(n, slices, slices, slice, 5);
      dest[q] := n + c;
      dest[q + 1] := n + b;
      dest[q + 2] := n + a;
      dest[q + 3] := n + a;
      dest[q + 4] := n + d;
      dest[q + 5] := n + c;
      q := q + 6;
    }
  }

  /** `3 * faceCount` indices fill exactly the `stacks - 1` rings of cells. */
  lemma FaceBufferSize(stacks: nat, slices: nat)
    requires stacks >= 1
    ensures 3 * FaceCount(stacks, slices) == 6 * RowStart(stacks - 1, slices)
  {
    RowStartProduct(stacks - 1, slices);
    assert slices * (stacks - 1) == (stacks - 1) * slices;
  }

  /** The triangle-connectivity loop: `tubeFaces` holds the indices of every ring of cells. */
  method CreateFaces(stacks: nat, slices: nat) returns (tubeFaces: array<int>)
    requires stacks >= 1
    ensures fresh(tubeFaces)
    ensures tubeFaces.Length == 3 * FaceCount(stacks, slices)
    ensures tubeFaces[..] == TubeFaces(slices, stacks - 1)
  {
    FaceBufferSize(stacks, slices);
    tubeFaces := new int[3 * FaceCount(stacks, slices)];
    var p := 0;
    for stack := 0 to stacks - 1
      invariant p == 6 * RowStart(stack, slices) && p <= tubeFaces.Length
      invariant forall k :: 0 <= k < p ==> tubeFaces[k] == TubeFaces(slices, stack)[k]
    {
      var n := stack * slices;
      RowStartProduct(stack, slices);
      RowStartMono(stack + 1, stacks - 1, slices);
      WriteRing(tubeFaces, p, n, slices);
      p := p + 6 * slices;
    }
    assert tubeFaces[..] == TubeFaces(slices, stacks - 1);
  }

  // ---------------------------------------------------------------------
  // The faces by grid position

  /**
   * Corner `s` of triangle `cell` as a grid point (stack, slice).  With
   * `J` the next slice around the ring, the cell's first triangle is
   * `c, b, a` = `(st+1, J) (st+1, j) (st, j)` and its second `a, d, c` =
   * `(st, j) (st, J) (st+1, J)`.
   */
  function TubeCorner(cell: Cell, s: nat, slices: nat): Point
    requires cell.col < slices
  {
    var st, j, J := cell.row, cell.col, Succ(cell.col, slices);
    var a, b, c, d := Point(st, j), Point(st + 1, j), Point(st + 1, J), Point(st, J);
    if cell.half == 0 then (if s == 0 then c else if s == 1 then b else a)
    else (if s == 0 then a else if s == 1 then d else c)
  }

  lemma CellIndicesAt(n: nat, slices: nat, cell: Cell, s: nat)
    requires cell.col < slices && cell.half < 2 && s < 3 && n == RowStart(cell.row, slices)
    ensures CellIndices(n, slices, cell.col)[3 * cell.half + s] == VertexIndex(TubeCorner(cell, s, slices), slices)
  {
    RowStartProduct(cell.row, slices);
    RowStartProduct(cell.row + 1, slices);
  }

  lemma TubeAtLast(slices: nat, rows: nat, cell: Cell, s: nat)
    requires cell.row + 1 == rows && cell.col < slices && cell.half < 2 && s < 3
    ensures 6 * RowStart(cell.row, slices) + 6 * cell.col + 3 * cell.half + s < |TubeFaces(slices, rows)|
    ensures TubeFaces(slices, rows)[6 * RowStart(cell.row, slices) + 6 * cell.col + 3 * cell.half + s]
      == VertexIndex(TubeCorner(cell, s, slices), slices)
  {
    var n := RowStart(cell.row, slices);
    var k := 6 * cell.col + 3 * cell.half + s;
    LastRingAt(slices, cell.row, k);
    RingAt(n, slices, slices, cell.col, 3 * cell.half + s);
    CellIndicesAt(n, slices, cell, s);
  }

  /** Index `k` of the last row's ring sits `6 * RowStart(row)` into the tube. */
  lemma LastRingAt(slices: nat, row: nat, k: nat)
    requires k < 6 * slices
    ensures 6 * RowStart(row, slices) + k < |TubeFaces(slices, row + 1)|
    ensures TubeFaces(slices, row + 1)[6 * RowStart(row, slices) + k]
      == RingFaces(RowStart(row, slices), slices, slices)[k]
  {
    TubeStep(slices, row + 1);
    IndexAfter(TubeFaces(slices, row), RingFaces(RowStart(row, slices), slices, slices), k);
  }

  /** The tube of one more row appends that row's ring of cells. */
  lemma TubeStep(slices: nat, rows: nat)
    requires rows >= 1
    ensures TubeFaces(slices, rows) ==
      TubeFaces(slices, rows - 1) + RingFaces(RowStart(rows - 1, slices), slices, slices)
    ensures |TubeFaces(slices, rows - 1)| == 6 * RowStart(rows - 1, slices)
  {
  }

  lemma {:induction false} TubeAtRow(slices: nat, rows: nat, cell: Cell, s: nat)
    requires cell.row < rows && cell.col < slices && cell.half < 2 && s < 3
    ensures 6 * RowStart(cell.row, slices) + 6 * cell.col + 3 * cell.half + s < |TubeFaces(slices, rows)|
    ensures TubeFaces(slices, rows)[6 * RowStart(cell.row, slices) + 6 * cell.col + 3 * cell.half + s]
      == VertexIndex(TubeCorner(cell, s, slices), slices)
  {
    if cell.row + 1 == rows {
      TubeAtLast(slices, rows, cell, s);
    } else {
      var k := 6 * RowStart(cell.row, slices) + 6 * cell.col + 3 * cell.half + s;
      var t := TubeFaces(slices, rows - 1);
      TubeAtRow(slices, rows - 1, cell, s);
      assert k < |t|;
      TubeStep(slices, rows);
      IndexBefore(t, RingFaces(RowStart(rows - 1, slices), slices, slices), k);
    }
  }

  /**
   * Index `3 * f + s` of the buffer is corner `s` of triangle `f`, where
   * triangle `f` is half `f % 2` of cell `f / 2` in stack-major order.
   */
  lemma TubeAt(stacks: nat, slices: nat, cell: Cell, s: nat)
    requires stacks >= 1 && cell.row < stacks - 1 && cell.col < slices && cell.half < 2 && s < 3
    ensures 3 * CellIndex(cell, slices) + s < |TubeFaces(slices, stacks - 1)|
    ensures TubeFaces(slices, stacks - 1)[3 * CellIndex(cell, slices) + s] == VertexIndex(TubeCorner(cell, s, slices), slices)
  {
    RowStartProduct(cell.row, slices);
    assert 3 * CellIndex(cell, slices) + s == 6 * RowStart(cell.row, slices) + 6 * cell.col + 3 * cell.half + s;
    TubeAtRow(slices, stacks - 1, cell, s);
  }

  // ---------------------------------------------------------------------
  // Counts, bounds, the ring's wrap and the shared diagonal

  /** Face `f` of the buffer is cell half `CellAt(f)`, inside the `stacks - 1` rings of cells. */
  lemma TubeFaceCell(stacks: nat, slices: nat, f: nat)
    requires stacks >= 1 && 3 * f < |TubeFaces(slices, stacks - 1)|
    ensures slices > 0
    ensures var cell := CellAt(f, slices);
      cell.row < stacks - 1 && cell.col < slices && cell.half < 2 && CellIndex(cell, slices) == f
  {
    RowStartProduct(stacks - 1, slices);
    CellRoundTrip(f, slices, stacks - 1);
  }

  /** Every index is one of the `vertCount` vertices. */
  predicate IndicesIn(indices: seq<int>, vertCount: nat)
  {
    forall k :: 0 <= k < |indices| ==> 0 <= indices[k] < vertCount
  }

  /** Every index written is a vertex: `0 <= index < vertCount`. */
  lemma TubeFacesInRange(stacks: nat, slices: nat)
    requires stacks >= 1
    ensures IndicesIn(TubeFaces(slices, stacks - 1), VertCount(stacks, slices))
  {
    var faces := TubeFaces(slices, stacks - 1);
    forall k | 0 <= k < |faces|
      ensures 0 <= faces[k] < VertCount(stacks, slices)
    {
      TubeFaceCell(stacks, slices, k / 3);
      var cell := CellAt(k / 3, slices);
      TubeAt(stacks, slices, cell, k % 3);
      VertexInRange(TubeCorner(cell, k % 3, slices), slices, stacks);
      assert stacks * slices == slices * stacks;
    }
  }

  /** The last cell of a ring reaches back to slice 0 through its corners `c` and `d`. */
  lemma RingWraps(stacks: nat, slices: nat, stack: nat)
    requires stacks >= 1 && stack < stacks - 1 && slices >= 1
    ensures 3 * CellIndex(Cell(stack, slices - 1, 1), slices) + 2 < |TubeFaces(slices, stacks - 1)|
    ensures var last := Cell(stack, slices - 1, 1);
      TubeFaces(slices, stacks - 1)[3 * CellIndex(last, slices) + 1] == VertexIndex(Point(stack, 0), slices) &&
      TubeFaces(slices, stacks - 1)[3 * CellIndex(last, slices) + 2] == VertexIndex(Point(stack + 1, 0), slices)
  {
    TubeAt(stacks, slices, Cell(stack, slices - 1, 1), 1);
    TubeAt(stacks, slices, Cell(stack, slices - 1, 1), 2);
  }

  /**
   * The two triangles of a cell traverse their shared diagonal in opposite
   * directions: the first runs `a -> c` (from its last corner to its
   * first), the second `c -> a`.
   */
  lemma SharedDiagonal(stacks: nat, slices: nat, stack: nat, slice: nat)
    requires stacks >= 1 && stack < stacks - 1 && slice < slices
    ensures var f := CellIndex(Cell(stack, slice, 0), slices);
      3 * f + 5 < |TubeFaces(slices, stacks - 1)|
    ensures var faces, f := TubeFaces(slices, stacks - 1), CellIndex(Cell(stack, slice, 0), slices);
      faces[3 * f + 2] == faces[3 * f + 3] && faces[3 * f] == faces[3 * f + 5]
  {
    var c0, c1 := Cell(stack, slice, 0), Cell(stack, slice, 1);
    assert CellIndex(c1, slices) == CellIndex(c0, slices) + 1;
    TubeAt(stacks, slices, c0, 0);
    TubeAt(stacks, slices, c0, 2);
    TubeAt(stacks, slices, c1, 0);
    TubeAt(stacks, slices, c1, 2);
  }


  // ---------------------------------------------------------------------
  // The tube as input to the adjacency builder

  /** The index buffer as the builder's 16-bit vertex indices. */
  function AsSource(indices: seq<int>): (source: seq<VertexId>)
    requires IndicesIn(indices, 0x10000)
    ensures |source| == |indices|
  {
    seq(|indices|, k requires 0 <= k < |indices| => indices[k])
  }

  /** Tail and head of half-edge `s` of triangle `cell`: from corner `(s + 2) % 3` to corner `s`. */
  function TubeEdge(cell: Cell, s: nat, slices: nat): (Point, Point)
    requires cell.col < slices
  {
    (TubeCorner(cell, (s + 2) % 3, slices), TubeCorner(cell, s, slices))
  }

  /** The tube's rim edges: slot 1 of the first triangles of the top ring of cells and of the second triangles of the bottom ring. */
  predicate Rim(cell: Cell, s: nat, rows: nat)
  {
    s == 1 && ((cell.half == 0 && cell.row + 1 == rows) || (cell.half == 1 && cell.row == 0))
  }

  /** With at least three slices, a directed edge belongs to one half-edge of the tube only. */
  lemma TubeEdgeInjective(c1: Cell, s1: nat, c2: Cell, s2: nat, slices: nat)
    requires 3 <= slices
    requires c1.col < slices && c1.half < 2 && s1 < 3
    requires c2.col < slices && c2.half < 2 && s2 < 3
    ensures TubeEdge(c1, s1, slices) == TubeEdge(c2, s2, slices) ==> c1 == c2 && s1 == s2
  {
    SuccFacts(c1.col, c2.col, slices);
    SuccFacts(c2.col, c1.col, slices);
  }

  /** The half-edge running the other way along the same edge, for a half-edge off the rim. */
  function TubePartner(cell: Cell, s: nat, slices: nat): (Cell, nat)
    requires cell.col < slices
  {
    var st, j := cell.row, cell.col;
    if cell.half == 0 then
      if s == 0 then (Cell(st, j, 1), 0)
      else if s == 1 then (Cell(st + 1, j, 1), 1)
      else (Cell(st, Pred(j, slices), 1), 2)
    else
      if s == 0 then (Cell(st, j, 0), 0)
      else if s == 1 then (Cell(if st == 0 then 0 else st - 1, j, 0), 1)
      else (Cell(st, Succ(j, slices), 0), 2)
  }

  lemma TubePartnerReverses(cell: Cell, s: nat, slices: nat, rows: nat)
    requires cell.row < rows && cell.col < slices && cell.half < 2 && s < 3 && !Rim(cell, s, rows)
    ensures var (d, t) := TubePartner(cell, s, slices);
      d.row < rows && d.col < slices && d.half < 2 && t < 3 &&
      TubeEdge(d, t, slices).0 == TubeEdge(cell, s, slices).1 &&
      TubeEdge(d, t, slices).1 == TubeEdge(cell, s, slices).0
  {
  }

  /** No half-edge of the tube runs the other way along a rim edge. */
  lemma RimUnmatched(cell: Cell, s: nat, other: Cell, t: nat, slices: nat, rows: nat)
    requires 3 <= slices && Rim(cell, s, rows) && cell.row < rows && cell.col < slices && cell.half < 2
    requires other.row < rows && other.col < slices && other.half < 2 && t < 3
    ensures TubeEdge(other, t, slices).0 != TubeEdge(cell, s, slices).1 ||
      TubeEdge(other, t, slices).1 != TubeEdge(cell, s, slices).0
  {
    SuccFacts(cell.col, other.col, slices);
    SuccFacts(other.col, cell.col, slices);
  }

  /** The tube's indices as the builder's source buffer. */
  function TubeSource(stacks: nat, slices: nat): (source: seq<VertexId>)
    requires stacks >= 1 && VertCount(stacks, slices) <= 0x10000
    ensures |source| == |TubeFaces(slices, stacks - 1)| == 3 * FaceCount(stacks, slices) == Whole(source)
  {
    TubeFacesInRange(stacks, slices);
    FaceBufferSize(stacks, slices);
    var indices := TubeFaces(slices, stacks - 1);
    assert IndicesIn(indices, 0x10000);
    AsSource(indices)
  }

  /** The key of half-edge `e`, read from the index buffer: from the previous corner of its face to its own. */
  lemma SourceKey(stacks: nat, slices: nat, e: nat)
    requires stacks >= 1 && VertCount(stacks, slices) <= 0x10000
    requires e < 3 * FaceCount(stacks, slices)
    ensures e < Whole(TubeSource(stacks, slices)) && 3 * (e / 3) + 2 < |TubeFaces(slices, stacks - 1)|
    ensures var key, faces := KeyOf(TubeSource(stacks, slices), e), TubeFaces(slices, stacks - 1);
      key.tail == faces[3 * (e / 3) + (e % 3 + 2) % 3] && key.head == faces[3 * (e / 3) + e % 3]
  {
    NextInFace(e, FaceCount(stacks, slices));
    assert Prev(e) == 3 * (e / 3) + (e % 3 + 2) % 3;
  }

  /** The key the builder computes for half-edge `e` of the tube is the edge of its cell's triangle. */
  lemma TubeKeyAt(stacks: nat, slices: nat, e: nat)
    requires stacks >= 1 && VertCount(stacks, slices) <= 0x10000
    requires e < 3 * FaceCount(stacks, slices)
    ensures slices > 0 && e < Whole(TubeSource(stacks, slices))
    ensures var cell := CellAt(e / 3, slices);
      cell.row < stacks - 1 && cell.col < slices && cell.half < 2 && CellIndex(cell, slices) == e / 3 &&
      var (t, h) := TubeEdge(cell, e % 3, slices);
      var key := KeyOf(TubeSource(stacks, slices), e);
      key.tail == VertexIndex(t, slices) && key.head == VertexIndex(h, slices)
  {
    SourceKey(stacks, slices, e);
    TubeFaceCell(stacks, slices, e / 3);
    var cell := CellAt(e / 3, slices);
    TubeAt(stacks, slices, cell, e % 3);
    TubeAt(stacks, slices, cell, (e % 3 + 2) % 3);
  }

  /** The same, addressed by cell and slot. */
  lemma TubeKeyOfCell(stacks: nat, slices: nat, d: Cell, t: nat)
    requires stacks >= 1 && VertCount(stacks, slices) <= 0x10000
    requires d.row < stacks - 1 && d.col < slices && d.half < 2 && t < 3
    ensures 3 * CellIndex(d, slices) + t < 3 * FaceCount(stacks, slices)
    ensures var (p, q) := TubeEdge(d, t, slices);
      var key := KeyOf(TubeSource(stacks, slices), 3 * CellIndex(d, slices) + t);
      key.tail == VertexIndex(p, slices) && key.head == VertexIndex(q, slices)
  {
    var x := 3 * CellIndex(d, slices) + t;
    TubeAt(stacks, slices, d, t);
    FaceBufferSize(stacks, slices);
    assert x / 3 == CellIndex(d, slices) && x % 3 == t;
    CellUnique(d, slices);
    TubeKeyAt(stacks, slices, x);
  }

  /** With at least three slices no directed edge occurs twice in the tube. */
  lemma TubeKeyInjective(stacks: nat, slices: nat, e1: nat, e2: nat)
    requires stacks >= 1 && 3 <= slices && VertCount(stacks, slices) <= 0x10000
    requires e1 < 3 * FaceCount(stacks, slices) && e2 < 3 * FaceCount(stacks, slices)
    ensures var source := TubeSource(stacks, slices);
      KeyOf(source, e1) == KeyOf(source, e2) ==> e1 == e2
  {
    var source := TubeSource(stacks, slices);
    TubeKeyAt(stacks, slices, e1);
    TubeKeyAt(stacks, slices, e2);
    if KeyOf(source, e1) == KeyOf(source, e2) {
      var c1, c2 := CellAt(e1 / 3, slices), CellAt(e2 / 3, slices);
      var (t1, h1) := TubeEdge(c1, e1 % 3, slices);
      var (t2, h2) := TubeEdge(c2, e2 % 3, slices);
      VertexUnique(t1, t2, slices);
      VertexUnique(h1, h2, slices);
      TubeEdgeInjective(c1, e1 % 3, c2, e2 % 3, slices);
    }
  }

  /** A half-edge of the tube has no twin exactly when it lies on the rim. */
  lemma TubeTwin(stacks: nat, slices: nat, e: nat)
    requires stacks >= 1 && 3 <= slices && VertCount(stacks, slices) <= 0x10000
    requires e < 3 * FaceCount(stacks, slices)
    ensures Twin(TubeSource(stacks, slices), FaceCount(stacks, slices), e).None? <==>
      Rim(CellAt(e / 3, slices), e % 3, stacks - 1)
  {
    var source := TubeSource(stacks, slices);
    var F, rows := FaceCount(stacks, slices), stacks - 1;
    TubeKeyAt(stacks, slices, e);
    var cell, s := CellAt(e / 3, slices), e % 3;
    var (te, he) := TubeEdge(cell, s, slices);
    if Rim(cell, s, rows) {
      forall x | 0 <= x < 3 * F
        ensures KeyOf(source, x) != KeyOf(source, e).Reversed()
      {
        TubeKeyAt(stacks, slices, x);
        var cx := CellAt(x / 3, slices);
        var (tx, hx) := TubeEdge(cx, x % 3, slices);
        RimUnmatched(cell, s, cx, x % 3, slices, rows);
        if VertexIndex(tx, slices) == VertexIndex(he, slices) {
          VertexUnique(tx, he, slices);
        }
        if VertexIndex(hx, slices) == VertexIndex(te, slices) {
          VertexUnique(hx, te, slices);
        }
      }
    } else {
      TubePartnerReverses(cell, s, slices, rows);
      var (d, t) := TubePartner(cell, s, slices);
      TubeKeyOfCell(stacks, slices, d, t);
      var x := 3 * CellIndex(d, slices) + t;
      assert KeyOf(source, x) == KeyOf(source, e).Reversed();
    }
  }

  /** No directed edge occurs twice among the tube's half-edges. */
  lemma TubeDistinct(stacks: nat, slices: nat)
    requires stacks >= 1 && 3 <= slices && VertCount(stacks, slices) <= 0x10000
    ensures DistinctKeys(TubeSource(stacks, slices), 3 * FaceCount(stacks, slices))
  {
    forall e1, e2 | 0 <= e1 < e2 < 3 * FaceCount(stacks, slices)
      ensures KeyOf(TubeSource(stacks, slices), e1) != KeyOf(TubeSource(stacks, slices), e2)
    {
      TubeKeyInjective(stacks, slices, e1, e2);
    }
  }

  // ---------------------------------------------------------------------
  // The open ends

  /**
   * A rim edge of slice `j`: on the last ring of vertices it runs from
   * column `j + 1` back to column `j`, on the first ring from `j` to `j + 1`.
   */
  function RimKey(stacks: nat, slices: nat, j: nat, top: bool): (key: EdgeKey)
    requires stacks >= 1 && j < slices && VertCount(stacks, slices) <= 0x10000
  {
    var row := if top then stacks - 1 else 0;
    var p, q := Point(row, j), Point(row, Succ(j, slices));
    VertexInRange(p, slices, stacks);
    VertexInRange(q, slices, stacks);
    if top then EdgeKey(VertexIndex(q, slices), VertexIndex(p, slices))
    else EdgeKey(VertexIndex(p, slices), VertexIndex(q, slices))
  }

  /** The rim edges of slices `0 .. m-1`, both ends. */
  function RimKeys(stacks: nat, slices: nat, m: nat): set<EdgeKey>
    requires stacks >= 1 && m <= slices && VertCount(stacks, slices) <= 0x10000
  {
    if m == 0 then {}
    else RimKeys(stacks, slices, m - 1) + {RimKey(stacks, slices, m - 1, true), RimKey(stacks, slices, m - 1, false)}
  }

  /** With at least two stacks the two ends are apart, so different rim edges have different keys. */
  lemma RimKeyInjective(stacks: nat, slices: nat, j1: nat, t1: bool, j2: nat, t2: bool)
    requires stacks >= 2 && j1 < slices && j2 < slices && VertCount(stacks, slices) <= 0x10000
    ensures RimKey(stacks, slices, j1, t1) == RimKey(stacks, slices, j2, t2) ==> j1 == j2 && t1 == t2
  {
    var k1, k2 := RimKey(stacks, slices, j1, t1), RimKey(stacks, slices, j2, t2);
    var r1, r2 := if t1 then stacks - 1 else 0, if t2 then stacks - 1 else 0;
    var p1, q1 := Point(r1, j1), Point(r1, Succ(j1, slices));
    var p2, q2 := Point(r2, j2), Point(r2, Succ(j2, slices));
    if k1 == k2 {
      if t1 == t2 {
        VertexUnique(p1, p2, slices);
      } else if t1 {
        VertexUnique(q1, p2, slices);
      } else {
        VertexUnique(p1, q2, slices);
      }
    }
  }

  /** Adding two new, different elements to a set adds two to its size. */
  lemma AddTwoFresh<T>(below: set<T>, up: T, down: T)
    requires up !in below && down !in below && up != down
    ensures |below + {up, down}| == |below| + 2
  {
    assert below + {up, down} == (below + {up}) + {down};
  }

  /** The rim edges of a later slice are neither rim edge of slice `m - 1`. */
  lemma RimKeyOthers(stacks: nat, slices: nat, m: nat, j: nat, top: bool)
    requires stacks >= 2 && 1 <= m <= j < slices && VertCount(stacks, slices) <= 0x10000
    ensures RimKey(stacks, slices, j, top) != RimKey(stacks, slices, m - 1, true)
    ensures RimKey(stacks, slices, j, top) != RimKey(stacks, slices, m - 1, false)
  {
    RimKeyInjective(stacks, slices, j, top, m - 1, true);
    RimKeyInjective(stacks, slices, j, top, m - 1, false);
  }

  /** There are `2 * m` rim edges of slices below `m`, and none of a later slice is among them. */
  lemma {:induction false} RimKeysCount(stacks: nat, slices: nat, m: nat)
    requires stacks >= 2 && m <= slices && VertCount(stacks, slices) <= 0x10000
    ensures |RimKeys(stacks, slices, m)| == 2 * m
    ensures forall j, top :: m <= j < slices ==> RimKey(stacks, slices, j, top) !in RimKeys(stacks, slices, m)
  {
    if m > 0 {
      RimKeysCount(stacks, slices, m - 1);
      var below := RimKeys(stacks, slices, m - 1);
      var up, down := RimKey(stacks, slices, m - 1, true), RimKey(stacks, slices, m - 1, false);
      RimKeyInjective(stacks, slices, m - 1, true, m - 1, false);
      AddTwoFresh(below, up, down);
      forall j, top | m <= j < slices
        ensures RimKey(stacks, slices, j, top) !in below + {up, down}
      {
        RimKeyOthers(stacks, slices, m, j, top);
      }
    }
  }

  /** A member of `RimKeys(m)` is the rim edge of some slice below `m`. */
  lemma {:induction false} RimKeyOrigin(stacks: nat, slices: nat, m: nat, k: EdgeKey) returns (j: nat, top: bool)
    requires stacks >= 1 && m <= slices && VertCount(stacks, slices) <= 0x10000
    requires k in RimKeys(stacks, slices, m)
    ensures j < m && k == RimKey(stacks, slices, j, top)
  {
    if k in RimKeys(stacks, slices, m - 1) {
      j, top := RimKeyOrigin(stacks, slices, m - 1, k);
    } else {
      j, top := m - 1, k == RimKey(stacks, slices, m - 1, true);
    }
  }

  /** Every rim edge of a slice below `m` is in `RimKeys(m)`. */
  lemma {:induction false} RimKeyIn(stacks: nat, slices: nat, m: nat, j: nat, top: bool)
    requires stacks >= 1 && j < m <= slices && VertCount(stacks, slices) <= 0x10000
    ensures RimKey(stacks, slices, j, top) in RimKeys(stacks, slices, m)
  {
    if j < m - 1 {
      RimKeyIn(stacks, slices, m - 1, j, top);
    }
  }

  /** The half-edge of a rim cell lies along its rim edge. */
  lemma RimEdge(stacks: nat, slices: nat, cell: Cell)
    requires stacks >= 2 && cell.row < stacks - 1 && cell.col < slices && cell.half < 2
    requires Rim(cell, 1, stacks - 1) && VertCount(stacks, slices) <= 0x10000
    ensures var key, (t, h) := RimKey(stacks, slices, cell.col, cell.half == 0), TubeEdge(cell, 1, slices);
      key.tail == VertexIndex(t, slices) && key.head == VertexIndex(h, slices)
  {
  }

  /** Every boundary edge of the tube is a rim edge. */
  lemma BoundaryOnRim(stacks: nat, slices: nat, k: EdgeKey)
    requires 2 <= stacks && 3 <= slices && VertCount(stacks, slices) <= 0x10000
    requires k in BoundaryKeys(TubeSource(stacks, slices), FaceCount(stacks, slices))
    ensures k in RimKeys(stacks, slices, slices)
  {
    var source, F := TubeSource(stacks, slices), FaceCount(stacks, slices);
    BoundaryIsUntwinned(source, F);
    var e :| 0 <= e < 3 * F && Twin(source, F, e).None? && KeyOf(source, e) == k;
    TubeTwin(stacks, slices, e);
    TubeKeyAt(stacks, slices, e);
    var cell := CellAt(e / 3, slices);
    RimEdge(stacks, slices, cell);
    RimKeyIn(stacks, slices, slices, cell.col, cell.half == 0);
  }

  /** Every rim edge of the tube is a boundary edge. */
  lemma RimOnBoundary(stacks: nat, slices: nat, j: nat, top: bool)
    requires 2 <= stacks && 3 <= slices && j < slices && VertCount(stacks, slices) <= 0x10000
    ensures RimKey(stacks, slices, j, top) in BoundaryKeys(TubeSource(stacks, slices), FaceCount(stacks, slices))
  {
    var source, F := TubeSource(stacks, slices), FaceCount(stacks, slices);
    var cell := if top then Cell(stacks - 2, j, 0) else Cell(0, j, 1);
    TubeKeyOfCell(stacks, slices, cell, 1);
    var x := 3 * CellIndex(cell, slices) + 1;
    assert x / 3 == CellIndex(cell, slices) && x % 3 == 1;
    CellUnique(cell, slices);
    TubeTwin(stacks, slices, x);
    RimEdge(stacks, slices, cell);
    assert KeyOf(source, x) == RimKey(stacks, slices, j, top);
    BoundaryIsUntwinned(source, F);
  }

  /**
   * With at least three slices and two stacks, the boundary edges the
   * builder counts for the tube are exactly the rim edges of its two open
   * ends: `2 * slices` of them.
   */
  lemma TubeBoundary(stacks: nat, slices: nat)
    requires 2 <= stacks && 3 <= slices && VertCount(stacks, slices) <= 0x10000
    ensures BoundaryKeys(TubeSource(stacks, slices), FaceCount(stacks, slices)) == RimKeys(stacks, slices, slices)
    ensures |BoundaryKeys(TubeSource(stacks, slices), FaceCount(stacks, slices))| == 2 * slices
  {
    var boundary := BoundaryKeys(TubeSource(stacks, slices), FaceCount(stacks, slices));
    forall k | k in boundary
      ensures k in RimKeys(stacks, slices, slices)
    {
      BoundaryOnRim(stacks, slices, k);
    }
    forall k | k in RimKeys(stacks, slices, slices)
      ensures k in boundary
    {
      var j, top := RimKeyOrigin(stacks, slices, slices, k);
      RimOnBoundary(stacks, slices, j, top);
    }
    RimKeysCount(stacks, slices, slices);
  }

  /**
   * Feeding the tube's index buffer to the adjacency builder: with at
   * least three slices it passes the duplicate check, and the boundary
   * count is `2 * slices` once there are two stacks (no faces at all with
   * one).
   */
  method CylinderAdjacency(stacks: nat, slices: nat) returns (tubeFaces: array<int>, adjacency: array<VertexId>, result: Result<nat, MeshError>)
    requires 1 <= stacks && 3 <= slices && VertCount(stacks, slices) <= 0x10000
    ensures tubeFaces[..] == TubeFaces(slices, stacks - 1)
    ensures stacks == 1 ==> result == Ok(0)
    ensures stacks >= 2 ==> result == Ok(2 * slices)
    ensures adjacency[..] == Records(TubeSource(stacks, slices), FaceCount(stacks, slices))
  {
    tubeFaces := CreateFaces(stacks, slices);
    var source := TubeSource(stacks, slices);
    var F := FaceCount(stacks, slices);
    TubeDistinct(stacks, slices);
    if stacks >= 2 {
      TubeBoundary(stacks, slices);
    } else {
      assert BoundaryKeys(source, F) == {};
    }
    adjacency := new VertexId[6 * F];
    result := ComputeAdjacency(adjacency, source, F);
    assert adjacency[..] == adjacency[..6 * F];
  }

  // ---------------------------------------------------------------------
  // The sweep circle and the vertex buffers

  /** `Pi` as the demo library defines it. */
  const Pi: real := 3.14159265

  /** `dtheta = 2 * Pi / slices`; with no slices the loop that would use it does not run. */
  function DTheta(slices: nat): real
  {
    if slices == 0 then 0.0 else 2.0 * Pi / slices as real
  }

  /** `theta` after `i` steps of `theta += dtheta` from `0`. */
  function Angle(slices: nat, i: nat): real
  {
    if i == 0 then 0.0 else Angle(slices, i - 1) + DTheta(slices)
  }

  /** The angle grows evenly: `i` steps are `i * dtheta`. */
  lemma {:induction false} AngleLinear(slices: nat, i: nat)
    ensures Angle(slices, i) == i as real * DTheta(slices)
  {
    if i > 0 {
      AngleLinear(slices, i - 1);
      assert i as real * DTheta(slices) == (i - 1) as real * DTheta(slices) + DTheta(slices);
    }
  }

  /** The `slices` steps of the sweep make one full turn of `2 * Pi`. */
  lemma FullTurn(slices: nat)
    requires slices > 0
    ensures Angle(slices, slices) == 2.0 * Pi
  {
    AngleLinear(slices, slices);
  }

  /** The first `m` points `(cos theta, sin theta)` of the circle, at `theta = Angle(i)`. */
  function Circle(cos: real -> real, sin: real -> real, slices: nat, m: nat): (r: seq<real>)
    ensures |r| == 2 * m
  {
    if m == 0 then []
    else Circle(cos, sin, slices, m - 1) + [cos(Angle(slices, m - 1)), sin(Angle(slices, m - 1))]
  }

  lemma {:induction false} CircleAt(cos: real -> real, sin: real -> real, slices: nat, m: nat, i: nat)
    requires i < m
    ensures |Circle(cos, sin, slices, m)| == 2 * m
    ensures Circle(cos, sin, slices, m)[2 * i] == cos(Angle(slices, i))
    ensures Circle(cos, sin, slices, m)[2 * i + 1] == sin(Angle(slices, i))
  {
    if i < m - 1 {
      CircleAt(cos, sin, slices, m - 1, i);
    }
  }

  /** The circle loop: `slices` points, the angle advancing by `dtheta` each step. */
  method SweepCircle(cos: real -> real, sin: real -> real, slices: nat) returns (circle: array<real>)
    ensures fresh(circle)
    ensures circle[..] == Circle(cos, sin, slices, slices)
  {
    circle := new real[2 * slices];
    var theta := 0.0;
    var dtheta := DTheta(slices);
    var p := 0;
    for slice := 0 to slices
      invariant p == 2 * slice
      invariant theta == Angle(slices, slice)
      invariant circle[..p] == Circle(cos, sin, slices, slice)
    {
      circle[p] := cos(theta);
      circle[p + 1] := sin(theta);
      p := p + 2;
      theta := theta + dtheta;
    }
    assert circle[..] == circle[..p];
  }

  /** The circle scaled by `radius`. */
  function Scaled(circle: seq<real>, radius: real): (r: seq<real>)
    ensures |r| == |circle|
  {
    seq(|circle|, k requires 0 <= k < |circle| => radius * circle[k])
  }

  lemma ScaledAt(circle: seq<real>, radius: real, k: nat)
    requires k < |circle|
    ensures Scaled(circle, radius)[k] == radius * circle[k]
  {
  }

  /** The in-place scaling loop. */
  method ScaleCircle(circle: array<real>, radius: real, slices: nat)
    requires circle.Length == 2 * slices
    modifies circle
    ensures circle[..] == Scaled(old(circle[..]), radius)
  {
    ghost var unit := circle[..];
    var p := 0;
    for slice := 0 to slices
      invariant p == 2 * slice <= circle.Length
      invariant forall k :: 0 <= k < p ==> circle[k] == Scaled(unit, radius)[k]
      invariant forall k :: p <= k < circle.Length ==> circle[k] == unit[k]
    {
      ScalePoint(circle, radius, p, unit);
      p := p + 2;
    }
    assert forall k :: 0 <= k < circle.Length ==> circle[..][k] == Scaled(unit, radius)[k];
  }

  /** One pass of the scaling loop: both coordinates of the point at `p`. */
  method ScalePoint(circle: array<real>, radius: real, p: nat, ghost unit: seq<real>)
    requires p + 2 <= circle.Length == |unit| && circle[p] == unit[p] && circle[p + 1] == unit[p + 1]
    modifies circle
    ensures circle[p] == Scaled(unit, radius)[p] && circle[p + 1] == Scaled(unit, radius)[p + 1]
    ensures forall k :: 0 <= k < circle.Length && k != p && k != p + 1 ==> circle[k] == old(circle[k])
  {
    var x := circle[p];
    circle[p] := radius * x;
    var y := circle[p + 1];
    circle[p + 1] := radius * y;
  }

  /** One ring of vertices: `first` followed by a circle point, for the first `m` points. */
  function Ring(first: real, circle: seq<real>, m: nat): (r: seq<real>)
    requires 2 * m <= |circle|
    ensures |r| == 3 * m
  {
    if m == 0 then [] else Ring(first, circle, m - 1) + [first, circle[2 * (m - 1)], circle[2 * (m - 1) + 1]]
  }

  /** One ring per entry of `xs`, that entry as the first coordinate of all its vertices. */
  function Sweep(xs: seq<real>, circle: seq<real>, slices: nat): (r: seq<real>)
    requires 2 * slices <= |circle|
    ensures |r| == 3 * RowStart(|xs|, slices)
  {
    if |xs| == 0 then [] else Sweep(xs[..|xs| - 1], circle, slices) + Ring(xs[|xs| - 1], circle, slices)
  }

  /** The normals' first coordinate: `0` on every stack. */
  function Zeros(stacks: nat): (r: seq<real>)
    ensures |r| == stacks
  {
    seq(stacks, _ => 0.0)
  }

  /** `x` after `i` steps of `x += dx` from `x0`. */
  function Advance(x0: real, dx: real, i: nat): real
  {
    if i == 0 then x0 else Advance(x0, dx, i - 1) + dx
  }

  /** The positions' first coordinate: `x0` advancing by `dx` from stack to stack. */
  function Spine(x0: real, dx: real, stacks: nat): (r: seq<real>)
    ensures |r| == stacks
  {
    seq(stacks, i requires 0 <= i < stacks => Advance(x0, dx, i))
  }

  /**
   * The inner `for slice` loop of the normal and position buffers: one
   * ring written at `p`, the rest of the buffer left as it was.
   */
  method WriteVertexRing(dest: array<real>, p: nat, first: real, circle: seq<real>, slices: nat)
    requires p + 3 * slices <= dest.Length && 2 * slices <= |circle|
    modifies dest
    ensures forall k :: 0 <= k < dest.Length && !(p <= k < p + 3 * slices) ==> dest[k] == old(dest[k])
    ensures forall k :: p <= k < p + 3 * slices ==> dest[k] == Ring(first, circle, slices)[k - p]
  {
    var q, src := p, 0;
    for slice := 0 to slices
      invariant q == p + 3 * slice && src == 2 * slice
      invariant forall k :: 0 <= k < dest.Length && !(p <= k < q) ==> dest[k] == old(dest[k])
      invariant forall k :: p <= k < q ==> dest[k] == Ring(first, circle, slice)[k - p]
    {
      dest[q] := first;
      dest[q + 1] := circle[src];
      dest[q + 2] := circle[src + 1];
      q, src := q + 3, src + 2;
    }
  }

  /** One pass of a stack loop: the ring of stack `stack` extends the rings written before it. */
  method WriteStack(dest: array<real>, p: nat, first: real, circle: seq<real>, slices: nat, ghost xs: seq<real>, stack: nat)
    requires stack < |xs| && xs[stack] == first && 2 * slices <= |circle|
    requires p == 3 * RowStart(stack, slices) && p + 3 * slices <= dest.Length
    requires forall k :: 0 <= k < p ==> dest[k] == Sweep(xs[..stack], circle, slices)[k]
    modifies dest
    ensures forall k :: 0 <= k < p + 3 * slices ==> dest[k] == Sweep(xs[..stack + 1], circle, slices)[k]
    ensures forall k :: p + 3 * slices <= k < dest.Length ==> dest[k] == old(dest[k])
  {
    WriteVertexRing(dest, p, first, circle, slices);
    assert xs[..stack + 1][..stack] == xs[..stack];
    assert Sweep(xs[..stack + 1], circle, slices) == Sweep(xs[..stack], circle, slices) + Ring(first, circle, slices);
  }

  /** The normal buffer of a cylinder swept along `cos` and `sin`. */
  function TubeNormals(cos: real -> real, sin: real -> real, stacks: nat, slices: nat): seq<real>
  {
    Sweep(Zeros(stacks), Circle(cos, sin, slices, slices), slices)
  }

  /** The position buffer: the circle scaled by `radius`, swept from `x = 0.5 - height / 2` by `dx`. */
  function TubePositions(cos: real -> real, sin: real -> real, height: real, radius: real, stacks: nat, slices: nat): seq<real>
  {
    Sweep(Spine(0.5 - height / 2.0, DX(height, stacks), stacks), Scaled(Circle(cos, sin, slices, slices), radius), slices)
  }

  /** `3 * vertCount` floats fill exactly `stacks` rings of vertices. */
  lemma VertexBufferSize(stacks: nat, slices: nat)
    ensures 3 * VertCount(stacks, slices) == 3 * RowStart(stacks, slices)
  {
    RowStartProduct(stacks, slices);
  }

  /** The normal loop: every stack repeats the circle, after a `0` for the X component. */
  method CreateNormals(circle: array<real>, stacks: nat, slices: nat) returns (tubeNormals: array<real>)
    requires circle.Length == 2 * slices
    ensures fresh(tubeNormals)
    ensures tubeNormals.Length == 3 * VertCount(stacks, slices)
    ensures tubeNormals[..] == Sweep(Zeros(stacks), circle[..], slices)
  {
    VertexBufferSize(stacks, slices);
    tubeNormals := new real[3 * VertCount(stacks, slices)];
    ghost var xs := Zeros(stacks);
    var p := 0;
    for stack := 0 to stacks
      invariant p == 3 * RowStart(stack, slices) && p <= tubeNormals.Length
      invariant forall k :: 0 <= k < p ==> tubeNormals[k] == Sweep(xs[..stack], circle[..], slices)[k]
    {
      RowStartMono(stack + 1, stacks, slices);
      WriteStack(tubeNormals, p, 0.0, circle[..], slices, xs, stack);
      p := p + 3 * slices;
    }
    assert xs[..stacks] == xs;
    assert tubeNormals[..] == Sweep(xs, circle[..], slices);
  }

  /**
   * `dx = height / (stacks - 1)`.  With a single stack the C division is
   * by zero, but the loop ends before `x` is advanced; `0` stands for it.
   */
  function DX(height: real, stacks: nat): real
  {
    if stacks >= 2 then height / (stacks - 1) as real else 0.0
  }

  /** The position loop: stack `i` is the scaled circle at `x = 0.5 - height / 2` advanced `i` times by `dx`. */
  method CreatePositions(circle: array<real>, height: real, stacks: nat, slices: nat) returns (tubeVerts: array<real>)
    requires circle.Length == 2 * slices
    ensures fresh(tubeVerts)
    ensures tubeVerts.Length == 3 * VertCount(stacks, slices)
    ensures tubeVerts[..] == Sweep(Spine(0.5 - height / 2.0, DX(height, stacks), stacks), circle[..], slices)
  {
    VertexBufferSize(stacks, slices);
    tubeVerts := new real[3 * VertCount(stacks, slices)];
    var x := 0.5 - height / 2.0;
    var dx := DX(height, stacks);
    ghost var xs := Spine(x, dx, stacks);
    var p := 0;
    for stack := 0 to stacks
      invariant p == 3 * RowStart(stack, slices) && p <= tubeVerts.Length
      invariant x == Advance(0.5 - height / 2.0, dx, stack)
      invariant forall k :: 0 <= k < p ==> tubeVerts[k] == Sweep(xs[..stack], circle[..], slices)[k]
    {
      RowStartMono(stack + 1, stacks, slices);
      WriteStack(tubeVerts, p, x, circle[..], slices, xs, stack);
      p := p + 3 * slices;
      x := x + dx;
    }
    assert xs[..stacks] == xs;
    assert tubeVerts[..] == Sweep(xs, circle[..], slices);
  }

  // ---------------------------------------------------------------------
  // The vertex buffers by grid position

  /** Component `i` of the vertex of a ring at circle point `slice`: `first`, then the point. */
  function VertexEntry(first: real, circle: seq<real>, slice: nat, i: nat): real
    requires 2 * slice + 1 < |circle| && i < 3
  {
    if i == 0 then first else circle[2 * slice + i - 1]
  }

  lemma {:induction false} VertexRingAt(first: real, circle: seq<real>, m: nat, j: nat, i: nat)
    requires j < m && 2 * m <= |circle| && i < 3
    ensures Ring(first, circle, m)[3 * j + i] == VertexEntry(first, circle, j, i)
  {
    if j < m - 1 {
      VertexRingAt(first, circle, m - 1, j, i);
    }
  }

  lemma SweepAtLast(xs: seq<real>, circle: seq<real>, slices: nat, slice: nat, i: nat)
    requires |xs| > 0 && slice < slices && 2 * slices <= |circle| && i < 3
    ensures 3 * RowStart(|xs| - 1, slices) + 3 * slice + i < |Sweep(xs, circle, slices)|
    ensures Sweep(xs, circle, slices)[3 * RowStart(|xs| - 1, slices) + 3 * slice + i] ==
      VertexEntry(xs[|xs| - 1], circle, slice, i)
  {
    var init := Sweep(xs[..|xs| - 1], circle, slices);
    assert |init| == 3 * RowStart(|xs| - 1, slices);
    VertexRingAt(xs[|xs| - 1], circle, slices, slice, i);
  }

  lemma {:induction false} SweepAtRow(xs: seq<real>, circle: seq<real>, slices: nat, stack: nat, slice: nat, i: nat)
    requires stack < |xs| && slice < slices && 2 * slices <= |circle| && i < 3
    ensures 3 * RowStart(stack, slices) + 3 * slice + i < |Sweep(xs, circle, slices)|
    ensures Sweep(xs, circle, slices)[3 * RowStart(stack, slices) + 3 * slice + i] ==
      VertexEntry(xs[stack], circle, slice, i)
  {
    if stack == |xs| - 1 {
      SweepAtLast(xs, circle, slices, slice, i);
    } else {
      var init := xs[..|xs| - 1];
      SweepAtRow(init, circle, slices, stack, slice, i);
      assert init[stack] == xs[stack];
    }
  }

  /** Component `i` of vertex `(stack, slice)` sits at `3 * (stack * slices + slice) + i`. */
  lemma SweepAt(xs: seq<real>, circle: seq<real>, slices: nat, stack: nat, slice: nat, i: nat)
    requires stack < |xs| && slice < slices && 2 * slices <= |circle| && i < 3
    ensures 3 * VertexIndex(Point(stack, slice), slices) + i < |Sweep(xs, circle, slices)|
    ensures Sweep(xs, circle, slices)[3 * VertexIndex(Point(stack, slice), slices) + i] ==
      VertexEntry(xs[stack], circle, slice, i)
  {
    RowStartProduct(stack, slices);
    SweepAtRow(xs, circle, slices, stack, slice, i);
  }

  /** Vertex `(stack, slice)`'s normal is `(0, cos theta, sin theta)` with `theta` the slice's angle. */
  lemma NormalAt(cos: real -> real, sin: real -> real, stacks: nat, slices: nat, stack: nat, slice: nat)
    requires stack < stacks && slice < slices
    ensures var normals, v := Sweep(Zeros(stacks), Circle(cos, sin, slices, slices), slices), 3 * VertexIndex(Point(stack, slice), slices);
      v + 2 < |normals| &&
      normals[v] == 0.0 && normals[v + 1] == cos(Angle(slices, slice)) && normals[v + 2] == sin(Angle(slices, slice))
  {
    var circle := Circle(cos, sin, slices, slices);
    SweepAt(Zeros(stacks), circle, slices, stack, slice, 0);
    SweepAt(Zeros(stacks), circle, slices, stack, slice, 1);
    SweepAt(Zeros(stacks), circle, slices, stack, slice, 2);
    CircleAt(cos, sin, slices, slices, slice);
  }

  /**
   * Vertex `(stack, slice)`'s position is `(x, radius * cos theta, radius * sin theta)`,
   * with `x` the stack's place on the spine.
   */
  lemma PositionAt(cos: real -> real, sin: real -> real, x0: real, dx: real, radius: real, stacks: nat, slices: nat, stack: nat, slice: nat)
    requires stack < stacks && slice < slices
    ensures var positions := Sweep(Spine(x0, dx, stacks), Scaled(Circle(cos, sin, slices, slices), radius), slices);
      var v, theta := 3 * VertexIndex(Point(stack, slice), slices), Angle(slices, slice);
      v + 2 < |positions| && positions[v] == Advance(x0, dx, stack) &&
      positions[v + 1] == radius * cos(theta) && positions[v + 2] == radius * sin(theta)
  {
    var xs := Spine(x0, dx, stacks);
    var circle := Scaled(Circle(cos, sin, slices, slices), radius);
    SweepAt(xs, circle, slices, stack, slice, 0);
    SweepAt(xs, circle, slices, stack, slice, 1);
    SweepAt(xs, circle, slices, stack, slice, 2);
    ScaledCircleAt(cos, sin, slices, radius, slice);
  }

  /** Point `slice` of the scaled circle is `(radius * cos theta, radius * sin theta)`. */
  lemma ScaledCircleAt(cos: real -> real, sin: real -> real, slices: nat, radius: real, slice: nat)
    requires slice < slices
    ensures var circle, theta := Scaled(Circle(cos, sin, slices, slices), radius), Angle(slices, slice);
      circle[2 * slice] == radius * cos(theta) && circle[2 * slice + 1] == radius * sin(theta)
  {
    var unit := Circle(cos, sin, slices, slices);
    CircleAt(cos, sin, slices, slices, slice);
    ScaledAt(unit, radius, 2 * slice);
    ScaledAt(unit, radius, 2 * slice + 1);
  }

  /** `i` steps of `dx` from `x0` land on `x0 + i * dx`. */
  lemma {:induction false} AdvanceLinear(x0: real, dx: real, i: nat)
    ensures Advance(x0, dx, i) == x0 + i as real * dx
  {
    if i > 0 {
      AdvanceLinear(x0, dx, i - 1);
      assert i as real * dx == (i - 1) as real * dx + dx;
    }
  }

  /**
   * The spine: with at least two stacks the first ring is at
   * `0.5 - height / 2` and the last at `0.5 + height / 2`, so the tube is
   * `height` long and centred on `x = 0.5`.
   */
  lemma SpineEnds(height: real, stacks: nat)
    requires stacks >= 2
    ensures var xs := Spine(0.5 - height / 2.0, DX(height, stacks), stacks);
      xs[0] == 0.5 - height / 2.0 && xs[stacks - 1] == 0.5 + height / 2.0
  {
    var n := (stacks - 1) as real;
    AdvanceLinear(0.5 - height / 2.0, DX(height, stacks), stacks - 1);
    assert n * (height / n) == height;
  }

  /** `(x, y)` lies on the circle of radius `r` around the origin. */
  predicate OnCircle(x: real, y: real, r: real)
  {
    x * x + y * y == r * r
  }

  /** A point of the unit circle scaled by `radius` lies on the circle of that radius. */
  lemma ScaledUnit(radius: real, x: real, y: real)
    requires OnCircle(x, y, 1.0)
    ensures OnCircle(radius * x, radius * y, radius)
  {
    calc {
      (radius * x) * (radius * x) + (radius * y) * (radius * y);
      radius * radius * (x * x + y * y);
      radius * radius;
    }
  }

  /** Where `cos` and `sin` of the slice's angle lie on the unit circle, point `slice` of the scaled circle is at distance `radius`. */
  lemma ScaledCircleOn(cos: real -> real, sin: real -> real, slices: nat, radius: real, slice: nat)
    requires slice < slices
    requires OnCircle(cos(Angle(slices, slice)), sin(Angle(slices, slice)), 1.0)
    ensures var circle := Scaled(Circle(cos, sin, slices, slices), radius);
      OnCircle(circle[2 * slice], circle[2 * slice + 1], radius)
  {
    ScaledCircleAt(cos, sin, slices, radius, slice);
    ScaledUnit(radius, cos(Angle(slices, slice)), sin(Angle(slices, slice)));
  }

  /**
   * Where `cos` and `sin` of a slice's angle lie on the unit circle, every
   * vertex of that slice has a unit normal pointing straight out from the
   * X axis, and its position lies on the cylinder of radius `radius`
   * around the spine, at the stack's place along it.
   */
  lemma VertexOnTube(cos: real -> real, sin: real -> real, x0: real, dx: real, radius: real, stacks: nat, slices: nat, stack: nat, slice: nat)
    requires stack < stacks && slice < slices
    requires OnCircle(cos(Angle(slices, slice)), sin(Angle(slices, slice)), 1.0)
    ensures 3 * VertexIndex(Point(stack, slice), slices) + 2 < |TubeNormals(cos, sin, stacks, slices)|
    ensures 3 * VertexIndex(Point(stack, slice), slices) + 2 < |Sweep(Spine(x0, dx, stacks), Scaled(Circle(cos, sin, slices, slices), radius), slices)|
    ensures var normals, v := TubeNormals(cos, sin, stacks, slices), 3 * VertexIndex(Point(stack, slice), slices);
      normals[v] == 0.0 && OnCircle(normals[v + 1], normals[v + 2], 1.0)
    ensures var positions := Sweep(Spine(x0, dx, stacks), Scaled(Circle(cos, sin, slices, slices), radius), slices);
      var v := 3 * VertexIndex(Point(stack, slice), slices);
      positions[v] == Advance(x0, dx, stack) && OnCircle(positions[v + 1], positions[v + 2], radius)
  {
    var xs := Spine(x0, dx, stacks);
    var circle := Scaled(Circle(cos, sin, slices, slices), radius);
    NormalAt(cos, sin, stacks, slices, stack, slice);
    SweepAt(xs, circle, slices, stack, slice, 0);
    SweepAt(xs, circle, slices, stack, slice, 1);
    SweepAt(xs, circle, slices, stack, slice, 2);
    ScaledCircleOn(cos, sin, slices, radius, slice);
  }

  // ---------------------------------------------------------------------
  // The whole mesh

  /** The counts and buffer contents handed to the GPU. */
  datatype Mesh = Mesh(faceCount: nat, vertexCount: nat, positions: seq<real>, normals: seq<real>, faces: seq<int>)

  /**
   * `CreateCylinder`: the circle, the normals from the unscaled circle,
   * the circle scaled in place, the positions from the scaled circle, then
   * the faces.
   */
  method CreateCylinder(height: real, radius: real, stacks: nat, slices: nat, cos: real -> real, sin: real -> real)
    returns (m: Mesh)
    requires stacks >= 1
    ensures m.faceCount == FaceCount(stacks, slices) && m.vertexCount == VertCount(stacks, slices)
    ensures |m.positions| == |m.normals| == 3 * m.vertexCount && |m.faces| == 3 * m.faceCount
    ensures m.normals == TubeNormals(cos, sin, stacks, slices)
    ensures m.positions == TubePositions(cos, sin, height, radius, stacks, slices)
    ensures m.faces == TubeFaces(slices, stacks - 1)
  {
    var circle := SweepCircle(cos, sin, slices);
    var tubeNormals := CreateNormals(circle, stacks, slices);
    ScaleCircle(circle, radius, slices);
    var tubeVerts := CreatePositions(circle, height, stacks, slices);
    var tubeFaces := CreateFaces(stacks, slices);
    m := Mesh(FaceCount(stacks, slices), VertCount(stacks, slices), tubeVerts[..], tubeNormals[..], tubeFaces[..]);
  }
}
