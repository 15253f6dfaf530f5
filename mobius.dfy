/**
 * The index buffers of the two Möbius viewers.  Both walk `Slices` slices
 * of `Stacks` vertices each, with a running base `n` that advances by
 * `Stacks` per slice, and write two triangles per (slice, stack) cell:
 * `(n+j, n+J, n+j+Stacks)` and `(n+j+Stacks, n+J, n+J+Stacks)`, where
 * `J = (j + 1) % Stacks`.  The CtmViewer version reduces every index
 * `% VertexCount`; the older Viewer version does not.
 */
module MobiusGrid {
  import opened Grid

  /** The six indices the cell at stack `j` of the slice starting at `n` writes. */
  function CellIndices(n: nat, j: nat, stacks: nat): seq<nat>
    requires j < stacks
  {
    var J := Succ(j, stacks);
    [n + j, n + J, n + j + stacks, n + j + stacks, n + J, n + J + stacks]
  }

  /** The indices of the first `m` cells of the slice starting at `n`. */
  function SliceIndices(n: nat, stacks: nat, m: nat): (r: seq<nat>)
    requires m <= stacks
    ensures |r| == 6 * m
  {
    if m == 0 then [] else SliceIndices(n, stacks, m - 1) + CellIndices(n, m - 1, stacks)
  }

  /** The indices of the first `slices` slices, before any wrap. */
  function GridIndices(stacks: nat, slices: nat): (r: seq<nat>)
    ensures |r| == 6 * RowStart(slices, stacks)
  {
    if slices == 0 then [] else GridIndices(stacks, slices - 1) + SliceIndices(RowStart(slices - 1, stacks), stacks, stacks)
  }

  /** Every index reduced modulo the vertex count. */
  function Wrapped(indices: seq<nat>, vertexCount: nat): (r: seq<nat>)
    requires vertexCount > 0
    ensures |r| == |indices|
  {
    seq(|indices|, k requires 0 <= k < |indices| => indices[k] % vertexCount)
  }

  lemma {:induction false} SliceAt(n: nat, stacks: nat, m: nat, j: nat, s: nat)
    requires j < m <= stacks && s < 6
    ensures SliceIndices(n, stacks, m)[6 * j + s] == CellIndices(n, j, stacks)[s]
  {
    if j < m - 1 {
      SliceAt(n, stacks, m - 1, j, s);
    }
  }

  lemma GridAtLast(stacks: nat, slices: nat, i: nat, j: nat, s: nat)
    requires i + 1 == slices && j < stacks && s < 6
    ensures 6 * RowStart(i, stacks) + 6 * j + s < |GridIndices(stacks, slices)|
    ensures GridIndices(stacks, slices)[6 * RowStart(i, stacks) + 6 * j + s] == CellIndices(RowStart(i, stacks), j, stacks)[s]
  {
    var n := RowStart(i, stacks);
    GridStep(stacks, i + 1);
    SliceAt(n, stacks, stacks, j, s);
    IndexAfter(GridIndices(stacks, i), SliceIndices(n, stacks, stacks), 6 * j + s);
  }

  /** The grid of one more slice appends that slice's indices. */
  lemma GridStep(stacks: nat, slices: nat)
    requires slices >= 1
    ensures GridIndices(stacks, slices) ==
      GridIndices(stacks, slices - 1) + SliceIndices(RowStart(slices - 1, stacks), stacks, stacks)
    ensures |GridIndices(stacks, slices - 1)| == 6 * RowStart(slices - 1, stacks)
  {
  }

  lemma {:induction false} GridAtSlice(stacks: nat, slices: nat, i: nat, j: nat, s: nat)
    requires i < slices && j < stacks && s < 6
    ensures 6 * RowStart(i, stacks) + 6 * j + s < |GridIndices(stacks, slices)|
    ensures GridIndices(stacks, slices)[6 * RowStart(i, stacks) + 6 * j + s] == CellIndices(RowStart(i, stacks), j, stacks)[s]
  {
    if i + 1 == slices {
      GridAtLast(stacks, slices, i, j, s);
    } else {
      var k := 6 * RowStart(i, stacks) + 6 * j + s;
      var g := GridIndices(stacks, slices - 1);
      GridAtSlice(stacks, slices - 1, i, j, s);
      assert k < |g|;
      GridStep(stacks, slices);
      IndexBefore(g, SliceIndices(RowStart(slices - 1, stacks), stacks, stacks), k);
    }
  }

  /**
   * Index `6 * (i * Stacks + j) + s` of the buffer is slot `s` of cell
   * `(i, j)`, whose base is `n = i * Stacks`.
   */
  lemma GridAt(stacks: nat, slices: nat, i: nat, j: nat, s: nat)
    requires i < slices && j < stacks && s < 6
    ensures 6 * VertexIndex(Point(i, j), stacks) + s < |GridIndices(stacks, slices)|
    ensures GridIndices(stacks, slices)[6 * VertexIndex(Point(i, j), stacks) + s] == CellIndices(i * stacks, j, stacks)[s]
  {
    RowStartProduct(i, stacks);
    GridAtSlice(stacks, slices, i, j, s);
  }

  /** `IndexCount = VertexCount * 6` entries, `VertexCount = Slices * Stacks`. */
  lemma IndexCount(stacks: nat, slices: nat)
    ensures |GridIndices(stacks, slices)| == 6 * (slices * stacks)
  {
    RowStartProduct(slices, stacks);
  }

  /** Every cell's two triangles run along their shared edge `n+J`, `n+j+Stacks` in opposite directions. */
  lemma SharedEdge(stacks: nat, slices: nat, i: nat, j: nat)
    requires i < slices && j < stacks
    ensures 6 * VertexIndex(Point(i, j), stacks) + 5 < |GridIndices(stacks, slices)|
    ensures var g, c := GridIndices(stacks, slices), 6 * VertexIndex(Point(i, j), stacks);
      g[c + 1] == g[c + 4] && g[c + 2] == g[c + 3]
  {
    GridAt(stacks, slices, i, j, 1);
    GridAt(stacks, slices, i, j, 2);
    GridAt(stacks, slices, i, j, 3);
    GridAt(stacks, slices, i, j, 4);
    GridAt(stacks, slices, i, j, 5);
  }

  /** The last cell of a slice closes the slice's ring: its neighbour is stack 0 of the same slice. */
  lemma StackWrap(stacks: nat, slices: nat, i: nat)
    requires i < slices && 0 < stacks
    ensures 6 * VertexIndex(Point(i, stacks - 1), stacks) + 5 < |GridIndices(stacks, slices)|
    ensures var g, c := GridIndices(stacks, slices), 6 * VertexIndex(Point(i, stacks - 1), stacks);
      g[c + 1] == i * stacks && g[c + 5] == i * stacks + stacks
  {
    GridAt(stacks, slices, i, stacks - 1, 1);
    GridAt(stacks, slices, i, stacks - 1, 5);
  }

  /** Every entry of `indices` is below `bound`. */
  predicate AllBelow(indices: seq<nat>, bound: nat)
  {
    forall k :: 0 <= k < |indices| ==> indices[k] < bound
  }

  lemma {:induction false} SliceBelow(n: nat, stacks: nat, m: nat)
    requires m <= stacks
    ensures AllBelow(SliceIndices(n, stacks, m), n + 2 * stacks)
  {
    if m > 0 {
      SliceBelow(n, stacks, m - 1);
    }
  }

  lemma {:induction false} GridBelow(stacks: nat, slices: nat)
    ensures AllBelow(GridIndices(stacks, slices), RowStart(slices, stacks) + stacks)
  {
    if slices > 0 {
      GridBelow(stacks, slices - 1);
      SliceBelow(RowStart(slices - 1, stacks), stacks, stacks);
    }
  }

  /** Before the wrap, every index is below `VertexCount + Stacks`. */
  lemma GridBound(stacks: nat, slices: nat)
    ensures AllBelow(GridIndices(stacks, slices), slices * stacks + stacks)
  {
    GridBelow(stacks, slices);
    RowStartProduct(slices, stacks);
  }
}

/** `CreateIndexBuffer` of the Viewer: the grid written without reducing the indices. */
module Viewer {
  import opened Grid
  import opened MobiusGrid

  /** The inner `for j` loop: the six indices of each cell of the slice at `n`, written at `p`. */
  method WriteSlice(dest: array<nat>, p: nat, n: nat, stacks: nat)
    requires p + 6 * stacks <= dest.Length
    modifies dest
    ensures forall k :: 0 <= k < dest.Length && !(p <= k < p + 6 * stacks) ==> dest[k] == old(dest[k])
    ensures forall k :: p <= k < p + 6 * stacks ==> dest[k] == SliceIndices(n, stacks, stacks)[k - p]
  {
    ghost var slice := SliceIndices(n, stacks, stacks);
    var q := p;
    for j := 0 to stacks
      invariant q == p + 6 * j
      invariant forall k :: 0 <= k < dest.Length && !(p <= k < q) ==> dest[k] == old(dest[k])
      invariant forall k :: p <= k < q ==> dest[k] == slice[k - p]
    {
      WriteCell(dest, q, n, j, stacks);
      forall s | 0 <= s < 6
        ensures slice[6 * j + s] == CellIndices(n, j, stacks)[s]
      {
        SliceAt(n, stacks, stacks, j, s);
      }
      q := q + 6;
    }
  }

  /** One pass of the inner loop: the six indices of cell `j`, written at `q`. */
  method WriteCell(dest: array<nat>, q: nat, n: nat, j: nat, stacks: nat)
    requires q + 6 <= dest.Length && j < stacks
    modifies dest
    ensures forall k :: 0 <= k < dest.Length && !(q <= k < q + 6) ==> dest[k] == old(dest[k])
    ensures forall k :: q <= k < q + 6 ==> dest[k] == CellIndices(n, j, stacks)[k - q]
  {
    SuccMod(j, stacks);
    dest[q] := n + j;
    dest[q + 1] := n + (j + 1) % stacks;
    dest[q + 2] := n + j + stacks;
    dest[q + 3] := n + j + stacks;
    dest[q + 4] := n + (j + 1) % stacks;
    dest[q + 5] := n + (j + 1) % stacks + stacks;
  }

  /**
   * The index loop, with the base `n` advancing by `stacks` per slice.
   * `tessellated` is the conjunction of the two checks after the loop
   * (`n == VertexCount` and `IndexCount` entries written): it always holds.
   */
  method CreateIndexBuffer(slices: nat, stacks: nat) returns (inds: array<nat>, tessellated: bool)
    ensures fresh(inds)
    ensures inds[..] == GridIndices(stacks, slices)
    ensures tessellated
  {
    IndexCount(stacks, slices);
    inds := new nat[6 * (slices * stacks)];
    var p, n := 0, 0;
    for i := 0 to slices
      invariant p == 6 * RowStart(i, stacks) && n == RowStart(i, stacks) && p <= inds.Length
      invariant forall k :: 0 <= k < p ==> inds[k] == GridIndices(stacks, i)[k]
    {
      RowStartMono(i + 1, slices, stacks);
      WriteSlice(inds, p, n, stacks);
      p := p + 6 * stacks;
      n := n + stacks;
    }
    RowStartProduct(slices, stacks);
    tessellated := n == slices * stacks && p == 6 * (slices * stacks);
    assert inds[..] == GridIndices(stacks, slices);
  }

  /**
   * The vertex buffer holds `VertexCount = Slices * Stacks` vertices, yet
   * the last slice names the vertices of a slice after it: the third index
   * of its first cell is `VertexCount` itself.
   */
  lemma IndexPastVertexBuffer(stacks: nat, slices: nat)
    requires 0 < slices && 0 < stacks
    ensures 6 * VertexIndex(Point(slices - 1, 0), stacks) + 2 < |GridIndices(stacks, slices)|
    ensures GridIndices(stacks, slices)[6 * VertexIndex(Point(slices - 1, 0), stacks) + 2] == slices * stacks
  {
    GridAt(stacks, slices, slices - 1, 0, 2);
    assert (slices - 1) * stacks + stacks == slices * stacks;
  }
}

/** `CreateIndexBuffer` of the CtmViewer: the same grid, every index reduced `% VertexCount`. */
module CtmViewer {
  import opened Grid
  import opened MobiusGrid

  /** The inner `for j` loop, each index taken `% vertexCount`. */
  method WriteSlice(dest: array<nat>, p: nat, n: nat, stacks: nat, vertexCount: nat)
    requires p + 6 * stacks <= dest.Length && vertexCount > 0
    modifies dest
    ensures forall k :: 0 <= k < dest.Length && !(p <= k < p + 6 * stacks) ==> dest[k] == old(dest[k])
    ensures forall k :: p <= k < p + 6 * stacks ==> dest[k] == SliceIndices(n, stacks, stacks)[k - p] % vertexCount
  {
    ghost var slice := SliceIndices(n, stacks, stacks);
    var q := p;
    for j := 0 to stacks
      invariant q == p + 6 * j
      invariant forall k :: 0 <= k < dest.Length && !(p <= k < q) ==> dest[k] == old(dest[k])
      invariant forall k :: p <= k < q ==> dest[k] == slice[k - p] % vertexCount
    {
      WriteCell(dest, q, n, j, stacks, vertexCount);
      forall s | 0 <= s < 6
        ensures slice[6 * j + s] == CellIndices(n, j, stacks)[s]
      {
        SliceAt(n, stacks, stacks, j, s);
      }
      q := q + 6;
    }
  }

  /** One pass of the inner loop: the six reduced indices of cell `j`, written at `q`. */
  method WriteCell(dest: array<nat>, q: nat, n: nat, j: nat, stacks: nat, vertexCount: nat)
    requires q + 6 <= dest.Length && j < stacks && vertexCount > 0
    modifies dest
    ensures forall k :: 0 <= k < dest.Length && !(q <= k < q + 6) ==> dest[k] == old(dest[k])
    ensures forall k :: q <= k < q + 6 ==> dest[k] == CellIndices(n, j, stacks)[k - q] % vertexCount
  {
    SuccMod(j, stacks);
    dest[q] := (n + j) % vertexCount;
    dest[q + 1] := (n + (j + 1) % stacks) % vertexCount;
    dest[q + 2] := (n + j + stacks) % vertexCount;
    dest[q + 3] := (n + j + stacks) % vertexCount;
    dest[q + 4] := (n + (j + 1) % stacks) % vertexCount;
    dest[q + 5] := (n + (j + 1) % stacks + stacks) % vertexCount;
  }

  /** The index loop; as in the Viewer, both checks after it always hold. */
  method CreateIndexBuffer(slices: nat, stacks: nat) returns (inds: array<nat>, tessellated: bool)
    requires 0 < slices && 0 < stacks
    ensures fresh(inds)
    ensures inds[..] == Wrapped(GridIndices(stacks, slices), slices * stacks)
    ensures tessellated
  {
    var vertexCount := slices * stacks;
    IndexCount(stacks, slices);
    inds := new nat[6 * vertexCount];
    var p, n := 0, 0;
    for i := 0 to slices
      invariant p == 6 * RowStart(i, stacks) && n == RowStart(i, stacks) && p <= inds.Length
      invariant forall k :: 0 <= k < p ==> inds[k] == GridIndices(stacks, i)[k] % vertexCount
    {
      RowStartMono(i + 1, slices, stacks);
      WriteSlice(inds, p, n, stacks, vertexCount);
      p := p + 6 * stacks;
      n := n + stacks;
    }
    RowStartProduct(slices, stacks);
    tessellated := n == vertexCount && p == 6 * vertexCount;
    assert inds[..] == Wrapped(GridIndices(stacks, slices), vertexCount);
  }

  /** Every index names one of the `VertexCount` vertices. */
  lemma IndicesInRange(stacks: nat, slices: nat)
    requires 0 < slices && 0 < stacks
    ensures AllBelow(Wrapped(GridIndices(stacks, slices), slices * stacks), slices * stacks)
  {
  }

  /**
   * Cells before the last slice are unchanged by the reduction; the last
   * slice is stitched back to slice 0: its far indices are stacks `j` and
   * `(j + 1) % Stacks` of the first slice.
   */
  lemma SliceStitch(stacks: nat, slices: nat, i: nat, j: nat, s: nat)
    requires i < slices && j < stacks && s < 6
    ensures 6 * VertexIndex(Point(i, j), stacks) + s < |GridIndices(stacks, slices)|
    ensures var c := 6 * VertexIndex(Point(i, j), stacks) + s;
      var w := Wrapped(GridIndices(stacks, slices), slices * stacks);
      (i + 1 < slices ==> w[c] == GridIndices(stacks, slices)[c]) &&
      (i + 1 == slices && s == 2 ==> w[c] == j) &&
      (i + 1 == slices && s == 5 ==> w[c] == Succ(j, stacks))
  {
    GridAt(stacks, slices, i, j, s);
    WrapSlice(stacks, slices, i, j, s);
  }

  /** The reduction of slot `s` of cell `(i, j)`, in terms of the slice's base `i * Stacks`. */
  lemma WrapSlice(stacks: nat, slices: nat, i: nat, j: nat, s: nat)
    requires i < slices && j < stacks && s < 6
    ensures slices * stacks > 0
    ensures var v, N := CellIndices(i * stacks, j, stacks)[s], slices * stacks;
      (i + 1 < slices ==> v % N == v) &&
      (i + 1 == slices && s == 2 ==> v % N == j) &&
      (i + 1 == slices && s == 5 ==> v % N == Succ(j, stacks))
  {
    MulStep(i, slices, stacks);
    if i + 1 < slices {
      MulStep(i + 1, slices, stacks);
      assert (i + 1) * stacks == i * stacks + stacks;
    } else {
      assert slices * stacks == i * stacks + stacks;
    }
    WrapCell(i * stacks, slices * stacks, j, stacks, s);
  }

  /** Reducing a cell's indices modulo the vertex count `N`, for a slice starting at `n`. */
  lemma WrapCell(n: nat, N: nat, j: nat, stacks: nat, s: nat)
    requires j < stacks && s < 6 && n + stacks <= N
    ensures n + 2 * stacks <= N ==> CellIndices(n, j, stacks)[s] % N == CellIndices(n, j, stacks)[s]
    ensures n + stacks == N && s == 2 ==> CellIndices(n, j, stacks)[s] % N == j
    ensures n + stacks == N && s == 5 ==> CellIndices(n, j, stacks)[s] % N == Succ(j, stacks)
  {
    var v := CellIndices(n, j, stacks)[s];
    if n + 2 * stacks <= N {
      DivModUnique(v, N, 0, v);
    } else if n + stacks == N && (s == 2 || s == 5) {
      DivModUnique(v, N, 1, v - N);
    }
  }
}
