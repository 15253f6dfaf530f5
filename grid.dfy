/**
 * Row-major grid arithmetic shared by the triangle-list generators.
 *
 * Every generator walks a grid of cells row by row and emits two
 * triangles per cell, so triangle `f` belongs to the cell at position
 * `f / 2` in row-major order and is that cell's half `f % 2`.  A grid
 * vertex at (row, col) has index `row * width + col`.
 */
module Grid {
  /** Half `half` (0 or 1) of the cell in row `row`, column `col`. */
  datatype Cell = Cell(row: nat, col: nat, half: nat)

  /** A grid vertex. */
  datatype Point = Point(row: nat, col: nat)

  /** The triangle number of a cell's half when cells are laid out row by row. */
  function CellIndex(c: Cell, width: nat): nat
  {
    2 * (c.row * width + c.col) + c.half
  }

  /** The cell half that triangle `f` belongs to. */
  function CellAt(f: nat, width: nat): Cell
    requires width > 0
  {
    Cell(f / 2 / width, f / 2 % width, f % 2)
  }

  /**
   * The first vertex of row `i` when every row has `width` vertices,
   * accumulated the way the generators' running base is (`v += width`).
   */
  function RowStart(i: nat, width: nat): nat
  {
    if i == 0 then 0 else RowStart(i - 1, width) + width
  }

  lemma {:induction false} RowStartProduct(i: nat, width: nat)
    ensures RowStart(i, width) == i * width
  {
    if i > 0 {
      RowStartProduct(i - 1, width);
      assert (i - 1) * width + width == i * width;
    }
  }

  /** Rows further down start further on. */
  lemma {:induction false} RowStartMono(i: nat, k: nat, width: nat)
    requires i <= k
    ensures RowStart(i, width) <= RowStart(k, width)
    decreases k
  {
    if i < k {
      RowStartMono(i, k - 1, width);
    }
  }
  /** The index of a grid vertex. */
  function VertexIndex(p: Point, width: nat): nat
  {
    p.row * width + p.col
  }

  /** Column or row successor with wrap-around: `(x + 1) % n`. */
  function Succ(x: nat, n: nat): (y: nat)
    requires x < n
    ensures y < n
  {
    if x + 1 < n then x + 1 else 0
  }

  lemma SuccMod(x: nat, n: nat)
    requires x < n
    ensures Succ(x, n) == (x + 1) % n
  {
  }

  /** The inverse of `Succ`. */
  function Pred(x: nat, n: nat): (y: nat)
    requires x < n
    ensures y < n && Succ(y, n) == x
  {
    if x == 0 then n - 1 else x - 1
  }

  /** Successors on a ring of at least three positions are one-to-one and never step back. */
  lemma SuccFacts(x: nat, y: nat, n: nat)
    requires 3 <= n && x < n && y < n
    ensures Succ(x, n) == Succ(y, n) ==> x == y
    ensures Succ(x, n) != x
    ensures Succ(x, n) == y ==> Succ(y, n) != x
  {
  }

  /** Cells and their triangle numbers are in one-to-one correspondence. */
  lemma CellUnique(c: Cell, width: nat)
    requires width > 0 && c.col < width && c.half < 2
    ensures CellAt(CellIndex(c, width), width) == c
  {
    var f := CellIndex(c, width);
    assert f / 2 == c.row * width + c.col;
    DivModUnique(f / 2, width, c.row, c.col);
  }

  lemma CellRoundTrip(f: nat, width: nat, rows: nat)
    requires width > 0 && f < 2 * (rows * width)
    ensures var c := CellAt(f, width);
      c.row < rows && c.col < width && c.half < 2 && CellIndex(c, width) == f
  {
    var m := f / 2;
    assert m == (m / width) * width + m % width;
    if m / width >= rows {
      MulStep(rows, m / width + 1, width);
    }
  }

  /** The triangles of a cell in one of the first `rows` rows come before `2 * rows * width`. */
  lemma CellInRange(c: Cell, width: nat, rows: nat)
    requires c.row < rows && c.col < width && c.half < 2
    ensures CellIndex(c, width) + 2 * width - 2 * c.col - c.half <= 2 * (rows * width)
  {
    MulStep(c.row, rows, width);
  }

  /** A row below `rows` and a column below `width` give a vertex below `rows * width`. */
  lemma VertexInRange(p: Point, width: nat, rows: nat)
    requires p.row < rows && p.col < width
    ensures VertexIndex(p, width) < rows * width
  {
    MulStep(p.row, rows, width);
  }

  /** Vertex indices identify grid vertices. */
  lemma VertexUnique(p: Point, q: Point, width: nat)
    requires p.col < width && q.col < width
    requires VertexIndex(p, width) == VertexIndex(q, width)
    ensures p == q
  {
    DivModUnique(VertexIndex(p, width), width, p.row, p.col);
    DivModUnique(VertexIndex(q, width), width, q.row, q.col);
  }

  lemma DivModUnique(k: nat, d: nat, q: nat, r: nat)
    requires d > 0 && r < d && k == q * d + r
    ensures k / d == q && k % d == r
  {
    var q', r' := k / d, k % d;
    if q' < q {
      MulStep(q', q, d);
    } else if q < q' {
      MulStep(q, q', d);
    }
  }

  lemma {:induction false} MulStep(x: nat, y: nat, d: nat)
    requires x < y
    ensures x * d + d <= y * d
    decreases y
  {
    if x + 1 < y {
      MulStep(x, y - 1, d);
      assert (y - 1) * d + d == y * d;
    } else {
      assert (x + 1) * d == x * d + d;
    }
  }

  /** An index into the first part of a concatenation. */
  lemma IndexBefore<T>(a: seq<T>, b: seq<T>, k: nat)
    requires k < |a|
    ensures k < |a + b| && (a + b)[k] == a[k]
  {
  }

  /** An index into the second part of a concatenation. */
  lemma IndexAfter<T>(a: seq<T>, b: seq<T>, k: nat)
    requires k < |b|
    ensures |a| + k < |a + b| && (a + b)[|a| + k] == b[k]
  {
  }
}
