/**
 * Grid surfaces of the parametric-mesh script: `closed_surface`,
 * `open_surface` and `surface`.
 *
 * The surface function itself is floating point and is left out: a vertex
 * is represented by the grid position `(i, j)` at which it is sampled.
 * What remains is the index structure, which is exact: a row of `stacks`
 * vertices per slice, and two triangles per cell, where a cell's row
 * starts at vertex `v` and the row below it starts at `w` (`v + stacks`,
 * or 0 for the last row of a closed surface).
 */
module Parametric {
  import opened Grid
  import opened Wrappers
  import opened Adjacency

  /** A triangle as the tuple `(a, b, c)` the script appends. */
  datatype Face = Face(a: nat, b: nat, c: nat)

  /** The grid position `(i, j)` of a sample `func(i * pi / slices, j * 2 * pi / stacks)`. */
  datatype Sample = Sample(slice: nat, stack: nat)

  /** Dividing by `slices` when it is 0. */
  datatype SurfaceError = ZeroDivision

  // ---------------------------------------------------------------------
  // What the loops produce

  /** The first `m` samples of row `i`. */
  function RowSamples(i: nat, m: nat): seq<Sample>
  {
    if m == 0 then [] else RowSamples(i, m - 1) + [Sample(i, m - 1)]
  }

  /** The samples of the first `rows` rows, row by row. */
  function GridSamples(rows: nat, stacks: nat): seq<Sample>
  {
    if rows == 0 then [] else GridSamples(rows - 1, stacks) + RowSamples(rows - 1, stacks)
  }

  /**
   * The two triangles of column `j` of a row that starts at vertex `v`
   * when the next row starts at `w`: `(v+j, v+next, w+j)` and
   * `(v+next, w+next, w+j)` with `next = (j + 1) % stacks`.
   */
  function Quad(v: nat, w: nat, j: nat, stacks: nat, half: nat): Face
    requires j < stacks
  {
    var next := Succ(j, stacks);
    if half == 0 then Face(v + j, v + next, w + j) else Face(v + next, w + next, w + j)
  }

  /** The faces of the first `m` cells of a row that starts at `v`, the next row starting at `w`. */
  function Band(v: nat, w: nat, stacks: nat, m: nat): seq<Face>
    requires m <= stacks
  {
    if m == 0 then []
    else Band(v, w, stacks, m - 1) + [Quad(v, w, m - 1, stacks, 0), Quad(v, w, m - 1, stacks, 1)]
  }

  /** The faces of the first `rows` rows of cells, each row joined to the row after it. */
  function Rows(stacks: nat, rows: nat): seq<Face>
  {
    if rows == 0 then []
    else Rows(stacks, rows - 1) + Band(RowStart(rows - 1, stacks), RowStart(rows, stacks), stacks, stacks)
  }

  /** Number of cell rows of a closed surface: the last slice is joined to the first. */
  function ClosedRows(slices: nat): nat
  {
    if slices == 0 then 1 else slices
  }

  /** All faces of `closed_surface(slices, stacks)`: the joined rows, then the last row joined to row 0. */
  function ClosedFaces(slices: nat, stacks: nat): seq<Face>
  {
    var last := ClosedRows(slices) - 1;
    Rows(stacks, last) + Band(RowStart(last, stacks), 0, stacks, stacks)
  }

  /** All faces of `open_surface(slices, stacks)`. */
  function OpenFaces(slices: nat, stacks: nat): seq<Face>
  {
    Rows(stacks, slices)
  }

  // ---------------------------------------------------------------------
  // The generators

  /** The vertex loop shared by both surfaces: `rows` rows of `stacks` samples. */
  method SampleRows(rows: nat, stacks: nat) returns (verts: seq<Sample>)
    ensures verts == GridSamples(rows, stacks)
  {
    verts := [];
    var i := 0;
    while i < rows
      invariant 0 <= i <= rows
      invariant verts == GridSamples(i, stacks)
    {
      var j := 0;
      while j < stacks
        invariant 0 <= j <= stacks
        invariant verts == GridSamples(i, stacks) + RowSamples(i, j)
      {
        verts := verts + [Sample(i, j)];
        j := j + 1;
      }
      i := i + 1;
    }
  }

  /**
   * The inner `for j in range(stacks)` loop of both surfaces: the two
   * triangles of every cell of the row starting at `v`, joined to the row
   * starting at `w`, appended to `init`.
   */
  method AppendBand(init: seq<Face>, v: nat, w: nat, stacks: nat) returns (faces: seq<Face>)
    ensures faces == init + Band(v, w, stacks, stacks)
  {
    faces := init;
    var j := 0;
    while j < stacks
      invariant 0 <= j <= stacks
      invariant faces == init + Band(v, w, stacks, j)
    {
      var next := (j + 1) % stacks;
      BandStep(v, w, stacks, j);
      faces := faces + [Face(v + j, v + next, w + j), Face(v + next, w + next, w + j)];
      j := j + 1;
    }
  }

  /** `closed_surface`: `slices` rows of samples, the last row of cells joined back to the first row. */
  method ClosedSurface(slices: nat, stacks: nat) returns (verts: seq<Sample>, faces: seq<Face>)
    ensures verts == GridSamples(slices, stacks)
    ensures faces == ClosedFaces(slices, stacks)
  {
    verts := SampleRows(slices, stacks);
    faces := [];
    var v := 0;
    var i := 0;
    while i + 1 < slices
      invariant i < ClosedRows(slices) && v == RowStart(i, stacks)
      invariant faces == Rows(stacks, i)
    {
      faces := AppendBand(faces, v, v + stacks, stacks);
      v := v + stacks;
      i := i + 1;
    }
    // The last row of cells: `(i + 1) % slices` is row 0, whose first vertex is 0.
    faces := AppendBand(faces, v, 0, stacks);
  }

  /** `open_surface`: `slices + 1` rows of samples and `slices` rows of cells. */
  method OpenSurface(slices: nat, stacks: nat) returns (result: Result<(seq<Sample>, seq<Face>), SurfaceError>)
    ensures result.Err? <==> slices == 0
    ensures result.Ok? ==> result.value == (GridSamples(slices + 1, stacks), OpenFaces(slices, stacks))
  {
    if slices == 0 {
      // `theta = i * pi / slices` divides by zero in the first row, before any stack is sampled.
      return Err(ZeroDivision);
    }
    var verts := SampleRows(slices + 1, stacks);
    var faces := [];
    var v := 0;
    var i := 0;
    while i < slices
      invariant i <= slices && v == RowStart(i, stacks)
      invariant faces == Rows(stacks, i)
    {
      faces := AppendBand(faces, v, v + stacks, stacks);
      v := v + stacks;
      i := i + 1;
    }
    return Ok((verts, faces));
  }

  /** `surface` is `open_surface`. */
  method Surface(slices: nat, stacks: nat) returns (result: Result<(seq<Sample>, seq<Face>), SurfaceError>)
    ensures result.Err? <==> slices == 0
    ensures result.Ok? ==> result.value == (GridSamples(slices + 1, stacks), OpenFaces(slices, stacks))
  {
    result := OpenSurface(slices, stacks);
  }

  /** One more cell of a band is the two faces the loops append for it. */
  lemma BandStep(v: nat, w: nat, stacks: nat, j: nat)
    requires j < stacks
    ensures var next := (j + 1) % stacks;
      Band(v, w, stacks, j + 1) == Band(v, w, stacks, j) + [Face(v + j, v + next, w + j), Face(v + next, w + next, w + j)]
  {
    SuccMod(j, stacks);
  }

  // ---------------------------------------------------------------------
  // Where each sample and each face ends up

  /** Grid position of the samples. */
  lemma {:induction false} RowSamplesAt(i: nat, m: nat, j: nat)
    requires j < m
    ensures |RowSamples(i, m)| == m && RowSamples(i, m)[j] == Sample(i, j)
  {
    if j < m - 1 {
      RowSamplesAt(i, m - 1, j);
    } else if m > 1 {
      RowSamplesAt(i, m - 1, 0);
    }
  }

  lemma {:induction false} GridSamplesLength(rows: nat, stacks: nat)
    ensures |GridSamples(rows, stacks)| == RowStart(rows, stacks)
  {
    if rows > 0 {
      GridSamplesLength(rows - 1, stacks);
      if stacks > 0 {
        RowSamplesAt(rows - 1, stacks, 0);
      }
    }
  }

  /**
   * `verts` holds `slices` (or `slices + 1`) rows of `stacks` samples,
   * and the sample at grid position `(i, j)` is vertex `i * stacks + j`.
   */
  lemma {:induction false} SampleAt(rows: nat, stacks: nat, p: Point)
    requires p.row < rows && p.col < stacks
    ensures |GridSamples(rows, stacks)| == rows * stacks
    ensures VertexIndex(p, stacks) < rows * stacks
    ensures GridSamples(rows, stacks)[VertexIndex(p, stacks)] == Sample(p.row, p.col)
    decreases rows
  {
    GridSamplesLength(rows, stacks);
    RowStartProduct(rows, stacks);
    VertexInRange(p, stacks, rows);
    GridSamplesLength(rows - 1, stacks);
    RowStartProduct(rows - 1, stacks);
    RowSamplesAt(rows - 1, stacks, p.col);
    if p.row < rows - 1 {
      SampleAt(rows - 1, stacks, p);
    }
  }

  lemma {:induction false} BandAt(v: nat, w: nat, stacks: nat, m: nat, j: nat, half: nat)
    requires j < m <= stacks && half < 2
    ensures |Band(v, w, stacks, m)| == 2 * m
    ensures Band(v, w, stacks, m)[2 * j + half] == Quad(v, w, j, stacks, half)
  {
    if j < m - 1 {
      BandAt(v, w, stacks, m - 1, j, half);
    } else if m > 1 {
      BandAt(v, w, stacks, m - 1, 0, 0);
    }
  }

  lemma {:induction false} RowsLength(stacks: nat, rows: nat)
    ensures |Rows(stacks, rows)| == 2 * RowStart(rows, stacks)
  {
    if rows > 0 {
      RowsLength(stacks, rows - 1);
      if stacks > 0 {
        BandAt(RowStart(rows - 1, stacks), RowStart(rows, stacks), stacks, stacks, 0, 0);
      }
    }
  }

  /** The faces of a row of cells sit right after those of the rows before it. */
  lemma RowsAtLast(stacks: nat, rows: nat, c: Cell)
    requires c.row + 1 == rows && c.col < stacks && c.half < 2
    ensures 2 * RowStart(c.row, stacks) + 2 * c.col + c.half < |Rows(stacks, rows)|
    ensures Rows(stacks, rows)[2 * RowStart(c.row, stacks) + 2 * c.col + c.half]
      == Quad(RowStart(c.row, stacks), RowStart(rows, stacks), c.col, stacks, c.half)
  {
    var before := Rows(stacks, c.row);
    var band := Band(RowStart(c.row, stacks), RowStart(rows, stacks), stacks, stacks);
    RowsLength(stacks, c.row);
    BandAt(RowStart(c.row, stacks), RowStart(rows, stacks), stacks, stacks, c.col, c.half);
    assert Rows(stacks, rows) == before + band;
  }

  lemma {:induction false} RowsAt(stacks: nat, rows: nat, c: Cell)
    requires c.row < rows && c.col < stacks && c.half < 2
    ensures 2 * RowStart(c.row, stacks) + 2 * c.col + c.half < |Rows(stacks, rows)|
    ensures Rows(stacks, rows)[2 * RowStart(c.row, stacks) + 2 * c.col + c.half]
      == Quad(RowStart(c.row, stacks), RowStart(c.row + 1, stacks), c.col, stacks, c.half)
  {
    if c.row + 1 == rows {
      RowsAtLast(stacks, rows, c);
    } else {
      var before := Rows(stacks, rows - 1);
      RowsAt(stacks, rows - 1, c);
      RowsLength(stacks, rows);
      assert Rows(stacks, rows) == before + Band(RowStart(rows - 1, stacks), RowStart(rows, stacks), stacks, stacks);
    }
  }


  // ---------------------------------------------------------------------
  // The faces described by grid position

  /**
   * The face of cell half `c` when the row of cells starting at row
   * `c.row` is joined to vertex row `below`: with `J` the next column
   * around (columns wrap), half 0 is `(i,j) (i,J) (below,j)` and half 1
   * is `(i,J) (below,J) (below,j)`.
   */
  function CellFace(c: Cell, stacks: nat, below: nat): Face
    requires c.col < stacks
  {
    var J := Succ(c.col, stacks);
    var p, q := Point(c.row, c.col), Point(c.row, J);
    var r, s := Point(below, c.col), Point(below, J);
    if c.half == 0 then Face(VertexIndex(p, stacks), VertexIndex(q, stacks), VertexIndex(r, stacks))
    else Face(VertexIndex(q, stacks), VertexIndex(s, stacks), VertexIndex(r, stacks))
  }

  /** What the loops emit for a cell is the face at that grid position. */
  lemma QuadIsCellFace(c: Cell, stacks: nat, below: nat)
    requires c.col < stacks && c.half < 2
    ensures Quad(RowStart(c.row, stacks), RowStart(below, stacks), c.col, stacks, c.half) == CellFace(c, stacks, below)
  {
    RowStartProduct(c.row, stacks);
    RowStartProduct(below, stacks);
  }

  lemma ClosedFacesLength(slices: nat, stacks: nat)
    ensures |ClosedFaces(slices, stacks)| == 2 * (ClosedRows(slices) * stacks)
  {
    var last := ClosedRows(slices) - 1;
    RowsLength(stacks, last);
    RowsLength(stacks, last + 1);
    RowStartProduct(last + 1, stacks);
    if stacks > 0 {
      BandAt(RowStart(last, stacks), 0, stacks, stacks, 0, 0);
    }
  }

  /** The cells of the last row, whose faces reach back to vertex row 0. */
  lemma ClosedWrapAt(slices: nat, stacks: nat, c: Cell)
    requires c.row + 1 == ClosedRows(slices) && c.col < stacks && c.half < 2
    ensures 2 * RowStart(c.row, stacks) + 2 * c.col + c.half < |ClosedFaces(slices, stacks)|
    ensures ClosedFaces(slices, stacks)[2 * RowStart(c.row, stacks) + 2 * c.col + c.half] == CellFace(c, stacks, 0)
  {
    var before := Rows(stacks, c.row);
    var band := Band(RowStart(c.row, stacks), 0, stacks, stacks);
    RowsLength(stacks, c.row);
    BandAt(RowStart(c.row, stacks), 0, stacks, stacks, c.col, c.half);
    QuadIsCellFace(c, stacks, 0);
    assert ClosedFaces(slices, stacks) == before + band;
  }

  /** The cells of the other rows, joined to the vertex row below. */
  lemma ClosedRowAt(slices: nat, stacks: nat, c: Cell)
    requires c.row + 1 < ClosedRows(slices) && c.col < stacks && c.half < 2
    ensures 2 * RowStart(c.row, stacks) + 2 * c.col + c.half < |ClosedFaces(slices, stacks)|
    ensures ClosedFaces(slices, stacks)[2 * RowStart(c.row, stacks) + 2 * c.col + c.half] == CellFace(c, stacks, c.row + 1)
  {
    var last := ClosedRows(slices) - 1;
    RowsAt(stacks, last, c);
    QuadIsCellFace(c, stacks, c.row + 1);
    assert ClosedFaces(slices, stacks) == Rows(stacks, last) + Band(RowStart(last, stacks), 0, stacks, stacks);
  }

  /**
   * Face `CellIndex(c)` of `closed_surface` is the face of cell `c`, where
   * rows wrap as columns do: the last row of cells is joined to row 0.
   */
  lemma ClosedFaceAt(slices: nat, stacks: nat, c: Cell)
    requires c.row < ClosedRows(slices) && c.col < stacks && c.half < 2
    ensures |ClosedFaces(slices, stacks)| == 2 * (ClosedRows(slices) * stacks)
    ensures CellIndex(c, stacks) < |ClosedFaces(slices, stacks)|
    ensures ClosedFaces(slices, stacks)[CellIndex(c, stacks)] == CellFace(c, stacks, Succ(c.row, ClosedRows(slices)))
  {
    ClosedFacesLength(slices, stacks);
    RowStartProduct(c.row, stacks);
    if c.row + 1 < ClosedRows(slices) {
      ClosedRowAt(slices, stacks, c);
    } else {
      ClosedWrapAt(slices, stacks, c);
    }
  }

  /** Face `CellIndex(c)` of `open_surface` is the face of cell `c`, joined to the row below it. */
  lemma OpenFaceAt(slices: nat, stacks: nat, c: Cell)
    requires c.row < slices && c.col < stacks && c.half < 2
    ensures |OpenFaces(slices, stacks)| == 2 * (slices * stacks)
    ensures CellIndex(c, stacks) < |OpenFaces(slices, stacks)|
    ensures OpenFaces(slices, stacks)[CellIndex(c, stacks)] == CellFace(c, stacks, c.row + 1)
  {
    RowsLength(stacks, slices);
    RowStartProduct(slices, stacks);
    RowStartProduct(c.row, stacks);
    RowsAt(stacks, slices, c);
    QuadIsCellFace(c, stacks, c.row + 1);
  }

  // ---------------------------------------------------------------------
  // Counts, index bounds and the shared diagonal

  /** Every corner of every face is a vertex below `n`. */
  predicate IndicesBelow(faces: seq<Face>, n: nat)
  {
    forall k :: 0 <= k < |faces| ==> faces[k].a < n && faces[k].b < n && faces[k].c < n
  }

  /** The corners of a cell's face lie in the rows `c.row` and `below`. */
  lemma CellFaceInRange(c: Cell, stacks: nat, below: nat, rows: nat)
    requires c.row < rows && below < rows && c.col < stacks
    ensures var f := CellFace(c, stacks, below); f.a < rows * stacks && f.b < rows * stacks && f.c < rows * stacks
  {
    var J := Succ(c.col, stacks);
    VertexInRange(Point(c.row, c.col), stacks, rows);
    VertexInRange(Point(c.row, J), stacks, rows);
    VertexInRange(Point(below, c.col), stacks, rows);
    VertexInRange(Point(below, J), stacks, rows);
  }

  /**
   * `closed_surface` returns `slices * stacks` vertices and
   * `2 * slices * stacks` faces, every index naming one of those vertices.
   */
  lemma ClosedCounts(slices: nat, stacks: nat)
    requires slices > 0
    ensures |GridSamples(slices, stacks)| == slices * stacks
    ensures |ClosedFaces(slices, stacks)| == 2 * (slices * stacks)
    ensures IndicesBelow(ClosedFaces(slices, stacks), slices * stacks)
  {
    GridSamplesLength(slices, stacks);
    RowStartProduct(slices, stacks);
    ClosedFacesLength(slices, stacks);
    var faces := ClosedFaces(slices, stacks);
    forall k | 0 <= k < |faces|
      ensures faces[k].a < slices * stacks && faces[k].b < slices * stacks && faces[k].c < slices * stacks
    {
      CellRoundTrip(k, stacks, slices);
      var c := CellAt(k, stacks);
      ClosedFaceAt(slices, stacks, c);
      CellFaceInRange(c, stacks, Succ(c.row, slices), slices);
    }
  }

  /**
   * With no slices, `closed_surface` still emits its wrap-around row of
   * `2 * stacks` faces, over vertices 0 .. stacks - 1 that it never sampled.
   */
  lemma ClosedWithoutSlices(stacks: nat)
    requires stacks > 0
    ensures |GridSamples(0, stacks)| == 0
    ensures |ClosedFaces(0, stacks)| == 2 * stacks
    ensures ClosedFaces(0, stacks)[0] == Face(0, Succ(0, stacks), 0)
  {
    ClosedFaceAt(0, stacks, Cell(0, 0, 0));
  }

  /**
   * `open_surface` returns `(slices + 1) * stacks` vertices and
   * `2 * slices * stacks` faces, every index naming one of those vertices.
   */
  lemma OpenCounts(slices: nat, stacks: nat)
    ensures |GridSamples(slices + 1, stacks)| == (slices + 1) * stacks
    ensures |OpenFaces(slices, stacks)| == 2 * (slices * stacks)
    ensures IndicesBelow(OpenFaces(slices, stacks), (slices + 1) * stacks)
  {
    GridSamplesLength(slices + 1, stacks);
    RowStartProduct(slices + 1, stacks);
    RowsLength(stacks, slices);
    RowStartProduct(slices, stacks);
    var faces := OpenFaces(slices, stacks);
    forall k | 0 <= k < |faces|
      ensures faces[k].a < (slices + 1) * stacks && faces[k].b < (slices + 1) * stacks && faces[k].c < (slices + 1) * stacks
    {
      CellRoundTrip(k, stacks, slices);
      var c := CellAt(k, stacks);
      OpenFaceAt(slices, stacks, c);
      CellFaceInRange(c, stacks, c.row + 1, slices + 1);
    }
  }

  /**
   * The two triangles of a cell share their diagonal and traverse it in
   * opposite directions: the first runs `b -> c`, the second `c -> a`
   * between the same two vertices.
   */
  lemma ClosedSharedDiagonal(slices: nat, stacks: nat, k: nat)
    requires 2 * k + 1 < |ClosedFaces(slices, stacks)|
    ensures var faces := ClosedFaces(slices, stacks);
      faces[2 * k].b == faces[2 * k + 1].a && faces[2 * k].c == faces[2 * k + 1].c
  {
    ClosedFacesLength(slices, stacks);
    CellRoundTrip(2 * k, stacks, ClosedRows(slices));
    var c := CellAt(2 * k, stacks);
    var d := c.(half := 1);
    assert CellIndex(d, stacks) == 2 * k + 1;
    ClosedFaceAt(slices, stacks, c);
    ClosedFaceAt(slices, stacks, d);
  }

  lemma OpenSharedDiagonal(slices: nat, stacks: nat, k: nat)
    requires 2 * k + 1 < |OpenFaces(slices, stacks)|
    ensures var faces := OpenFaces(slices, stacks);
      faces[2 * k].b == faces[2 * k + 1].a && faces[2 * k].c == faces[2 * k + 1].c
  {
    RowsLength(stacks, slices);
    RowStartProduct(slices, stacks);
    CellRoundTrip(2 * k, stacks, slices);
    CellRoundTrip(2 * k + 1, stacks, slices);
    OpenFaceAt(slices, stacks, CellAt(2 * k, stacks));
    OpenFaceAt(slices, stacks, CellAt(2 * k + 1, stacks));
  }

  // ---------------------------------------------------------------------
  // A closed surface is watertight for the adjacency builder

  /** Corner `s` (0, 1 or 2) of a face. */
  function Corner(f: Face, s: nat): nat
  {
    if s == 0 then f.a else if s == 1 then f.b else f.c
  }

  /** The triangle list as the flat index buffer the adjacency builder reads: three indices per face. */
  function Flatten(faces: seq<Face>): (flat: seq<VertexId>)
    requires IndicesBelow(faces, 0x10000)
    ensures |flat| == 3 * |faces| && Whole(flat) == |flat|
  {
    seq(3 * |faces|, e requires 0 <= e < 3 * |faces| => Corner(faces[e / 3], e % 3))
  }

  /**
   * Tail and head, as grid points, of half-edge `s` of the face of cell
   * `c` on a grid whose rows wrap after `rows` and columns after
   * `stacks`.  Half-edge 0 runs from corner c to corner a, 1 from a to b
   * and 2 from b to c, as the adjacency builder numbers them.
   */
  function CellEdge(c: Cell, s: nat, stacks: nat, rows: nat): (Point, Point)
    requires c.row < rows && c.col < stacks
  {
    var I, J := Succ(c.row, rows), Succ(c.col, stacks);
    if c.half == 0 then
      if s == 0 then (Point(I, c.col), Point(c.row, c.col))
      else if s == 1 then (Point(c.row, c.col), Point(c.row, J))
      else (Point(c.row, J), Point(I, c.col))
    else
      if s == 0 then (Point(I, c.col), Point(c.row, J))
      else if s == 1 then (Point(c.row, J), Point(I, J))
      else (Point(I, J), Point(I, c.col))
  }

  /** On a grid at least three wide each way, a directed grid edge belongs to one cell half-edge only. */
  lemma CellEdgeInjective(c1: Cell, s1: nat, c2: Cell, s2: nat, stacks: nat, rows: nat)
    requires 3 <= rows && 3 <= stacks
    requires c1.row < rows && c1.col < stacks && c1.half < 2 && s1 < 3
    requires c2.row < rows && c2.col < stacks && c2.half < 2 && s2 < 3
    ensures CellEdge(c1, s1, stacks, rows) == CellEdge(c2, s2, stacks, rows) ==> c1 == c2 && s1 == s2
  {
    SuccFacts(c1.row, c2.row, rows);
    SuccFacts(c2.row, c1.row, rows);
    SuccFacts(c1.col, c2.col, stacks);
    SuccFacts(c2.col, c1.col, stacks);
  }

  /** The cell half-edge running the other way along the same grid edge. */
  function Partner(c: Cell, s: nat, stacks: nat, rows: nat): (Cell, nat)
    requires c.row < rows && c.col < stacks
  {
    if c.half == 0 then
      if s == 0 then (Cell(c.row, Pred(c.col, stacks), 1), 1)
      else if s == 1 then (Cell(Pred(c.row, rows), c.col, 1), 2)
      else (Cell(c.row, c.col, 1), 0)
    else
      if s == 0 then (Cell(c.row, c.col, 0), 2)
      else if s == 1 then (Cell(c.row, Succ(c.col, stacks), 0), 0)
      else (Cell(Succ(c.row, rows), c.col, 0), 1)
  }

  /** Every half-edge of a fully wrapped grid has a partner running the other way. */
  lemma PartnerReverses(c: Cell, s: nat, stacks: nat, rows: nat)
    requires c.row < rows && c.col < stacks && c.half < 2 && s < 3
    ensures var (d, t) := Partner(c, s, stacks, rows);
      d.row < rows && d.col < stacks && d.half < 2 && t < 3 &&
      CellEdge(d, t, stacks, rows).0 == CellEdge(c, s, stacks, rows).1 &&
      CellEdge(d, t, stacks, rows).1 == CellEdge(c, s, stacks, rows).0
  {
  }

  /** Half-edge `e` of a flattened list runs from corner `(e % 3 + 2) % 3` to corner `e % 3` of face `e / 3`. */
  lemma FlatKey(faces: seq<Face>, e: nat)
    requires IndicesBelow(faces, 0x10000) && e < 3 * |faces|
    ensures e < Whole(Flatten(faces)) && e / 3 < |faces|
    ensures var key := KeyOf(Flatten(faces), e);
      key.tail == Corner(faces[e / 3], (e % 3 + 2) % 3) && key.head == Corner(faces[e / 3], e % 3)
  {
    NextInFace(e, |faces|);
    assert Prev(e) % 3 == (e % 3 + 2) % 3;
  }

  /** The corners of a cell's face are the ends of its grid edges. */
  lemma CellEdgeCorners(c: Cell, s: nat, stacks: nat, rows: nat)
    requires c.row < rows && c.col < stacks && s < 3
    ensures var face := CellFace(c, stacks, Succ(c.row, rows));
      var (t, h) := CellEdge(c, s, stacks, rows);
      VertexIndex(t, stacks) == Corner(face, (s + 2) % 3) && VertexIndex(h, stacks) == Corner(face, s)
  {
  }

  /** The key the builder computes for half-edge `e` of a closed surface is the grid edge of its cell. */
  lemma ClosedKeyAt(slices: nat, stacks: nat, e: nat)
    requires IndicesBelow(ClosedFaces(slices, stacks), 0x10000)
    requires e < 3 * |ClosedFaces(slices, stacks)|
    ensures stacks > 0
    ensures var R := ClosedRows(slices);
      var c := CellAt(e / 3, stacks);
      c.row < R && c.col < stacks && c.half < 2 && CellIndex(c, stacks) == e / 3 &&
      var (t, h) := CellEdge(c, e % 3, stacks, R);
      var key := KeyOf(Flatten(ClosedFaces(slices, stacks)), e);
      key.tail == VertexIndex(t, stacks) && key.head == VertexIndex(h, stacks)
  {
    var faces := ClosedFaces(slices, stacks);
    var R := ClosedRows(slices);
    ClosedFacesLength(slices, stacks);
    CellRoundTrip(e / 3, stacks, R);
    var c := CellAt(e / 3, stacks);
    ClosedFaceAt(slices, stacks, c);
    FlatKey(faces, e);
    CellEdgeCorners(c, e % 3, stacks, R);
  }

  /**
   * For at least three slices and three stacks, distinct half-edges of a
   * closed surface never run along the same directed edge.
   */
  lemma ClosedKeyInjective(slices: nat, stacks: nat, e1: nat, e2: nat)
    requires 3 <= slices && 3 <= stacks
    requires IndicesBelow(ClosedFaces(slices, stacks), 0x10000)
    requires e1 < 3 * |ClosedFaces(slices, stacks)| && e2 < 3 * |ClosedFaces(slices, stacks)|
    ensures var flat := Flatten(ClosedFaces(slices, stacks));
      KeyOf(flat, e1) == KeyOf(flat, e2) ==> e1 == e2
  {
    var flat := Flatten(ClosedFaces(slices, stacks));
    ClosedKeyAt(slices, stacks, e1);
    ClosedKeyAt(slices, stacks, e2);
    if KeyOf(flat, e1) == KeyOf(flat, e2) {
      var c1, c2 := CellAt(e1 / 3, stacks), CellAt(e2 / 3, stacks);
      var (t1, h1) := CellEdge(c1, e1 % 3, stacks, slices);
      var (t2, h2) := CellEdge(c2, e2 % 3, stacks, slices);
      VertexUnique(t1, t2, stacks);
      VertexUnique(h1, h2, stacks);
      CellEdgeInjective(c1, e1 % 3, c2, e2 % 3, stacks, slices);
    }
  }

  /** The same, addressed by cell and slot. */
  lemma ClosedKeyOfCell(slices: nat, stacks: nat, d: Cell, t: nat)
    requires IndicesBelow(ClosedFaces(slices, stacks), 0x10000)
    requires d.row < ClosedRows(slices) && d.col < stacks && d.half < 2 && t < 3
    ensures 3 * CellIndex(d, stacks) + t < 3 * |ClosedFaces(slices, stacks)|
    ensures var (p, q) := CellEdge(d, t, stacks, ClosedRows(slices));
      var key := KeyOf(Flatten(ClosedFaces(slices, stacks)), 3 * CellIndex(d, stacks) + t);
      key.tail == VertexIndex(p, stacks) && key.head == VertexIndex(q, stacks)
  {
    var x := 3 * CellIndex(d, stacks) + t;
    ClosedFaceAt(slices, stacks, d);
    assert x / 3 == CellIndex(d, stacks) && x % 3 == t;
    CellUnique(d, stacks);
    ClosedKeyAt(slices, stacks, x);
  }

  /** Every half-edge of a closed surface has its reverse among the half-edges. */
  lemma ClosedHasTwin(slices: nat, stacks: nat, e: nat)
    requires IndicesBelow(ClosedFaces(slices, stacks), 0x10000)
    requires e < 3 * |ClosedFaces(slices, stacks)|
    ensures var faces := ClosedFaces(slices, stacks);
      Twin(Flatten(faces), |faces|, e).Some?
  {
    var faces := ClosedFaces(slices, stacks);
    var flat := Flatten(faces);
    var R := ClosedRows(slices);
    ClosedKeyAt(slices, stacks, e);
    var c := CellAt(e / 3, stacks);
    PartnerReverses(c, e % 3, stacks, R);
    var (d, t) := Partner(c, e % 3, stacks, R);
    ClosedKeyOfCell(slices, stacks, d, t);
    var x := 3 * CellIndex(d, stacks) + t;
    assert KeyOf(flat, x) == KeyOf(flat, e).Reversed();
  }

  /**
   * For at least three slices and three stacks, `closed_surface` is a
   * watertight input for the adjacency builder: no directed edge repeats
   * and every edge has its reverse, so no edge is a boundary edge.
   */
  lemma ClosedWatertight(slices: nat, stacks: nat)
    requires 3 <= slices && 3 <= stacks && slices * stacks <= 0x10000
    ensures IndicesBelow(ClosedFaces(slices, stacks), 0x10000)
    ensures var faces := ClosedFaces(slices, stacks);
      DistinctKeys(Flatten(faces), 3 * |faces|) && |BoundaryKeys(Flatten(faces), |faces|)| == 0
  {
    ClosedCounts(slices, stacks);
    var faces := ClosedFaces(slices, stacks);
    var flat := Flatten(faces);
    forall e1, e2 | 0 <= e1 < e2 < 3 * |faces|
      ensures KeyOf(flat, e1) != KeyOf(flat, e2)
    {
      ClosedKeyInjective(slices, stacks, e1, e2);
    }
    forall e | 0 <= e < 3 * |faces|
      ensures Twin(flat, |faces|, e).Some?
    {
      ClosedHasTwin(slices, stacks, e);
    }
    BoundaryFree(flat, |faces|);
  }

  /**
   * Feeding the faces of `closed_surface` to the adjacency builder: it
   * accepts them and counts no boundary edge.
   */
  method ClosedSurfaceAdjacency(slices: nat, stacks: nat) returns (faces: seq<Face>, adjacency: array<VertexId>, result: Result<nat, MeshError>)
    requires 3 <= slices && 3 <= stacks && slices * stacks <= 0x10000
    ensures faces == ClosedFaces(slices, stacks) && IndicesBelow(faces, 0x10000)
    ensures result == Ok(0)
    ensures adjacency[..] == Records(Flatten(faces), |faces|)
  {
    var verts;
    verts, faces := ClosedSurface(slices, stacks);
    ClosedWatertight(slices, stacks);
    var flat := Flatten(faces);
    adjacency := new VertexId[6 * |faces|];
    result := ComputeAdjacency(adjacency, flat, |faces|);
    assert adjacency[..] == adjacency[..6 * |faces|];
  }
}
