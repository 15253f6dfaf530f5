/**
 * Small meshes run through the adjacency specification: a lone triangle,
 * two triangles sharing an edge, and two triangles wound the same way.
 */
module AdjacencyExamples {
  import opened Wrappers
  import opened Adjacency

  const Lone: seq<VertexId> := [0, 1, 2]
  const Pair: seq<VertexId> := [0, 1, 2, 1, 0, 3]
  const SameWinding: seq<VertexId> := [0, 1, 2, 0, 1, 3]

  /** A lone triangle (A, B, C) = (0, 1, 2) has three boundary edges and the record [C, C, A, C, B, A]. */
  lemma LoneTriangle()
    ensures DistinctKeys(Lone, 3)
    ensures Records(Lone, 1) == [2, 2, 0, 2, 1, 0]
    ensures |BoundaryKeys(Lone, 1)| == 3
  {
    assert KeyOf(Lone, 0) == EdgeKey(2, 0);
    assert KeyOf(Lone, 1) == EdgeKey(0, 1);
    assert KeyOf(Lone, 2) == EdgeKey(1, 2);
    assert EdgeTable(Lone, 3) == map[EdgeKey(2, 0) := 0, EdgeKey(0, 1) := 1, EdgeKey(1, 2) := 2];
    assert Twin(Lone, 1, 0) == None;
    assert Twin(Lone, 1, 1) == None;
    assert Twin(Lone, 1, 2) == None;
    RecordLayout(Lone, 1, 0);
    assert BoundaryKeys(Lone, 1) == {EdgeKey(2, 0), EdgeKey(0, 1), EdgeKey(1, 2)};
  }

  lemma PairTable()
    ensures DistinctKeys(Pair, 6)
    ensures EdgeTable(Pair, 6) == map[EdgeKey(2, 0) := 0, EdgeKey(0, 1) := 1, EdgeKey(1, 2) := 2,
                                      EdgeKey(3, 1) := 3, EdgeKey(1, 0) := 4, EdgeKey(0, 3) := 5]
  {
    assert KeyOf(Pair, 0) == EdgeKey(2, 0);
    assert KeyOf(Pair, 1) == EdgeKey(0, 1);
    assert KeyOf(Pair, 2) == EdgeKey(1, 2);
    assert KeyOf(Pair, 3) == EdgeKey(3, 1);
    assert KeyOf(Pair, 4) == EdgeKey(1, 0);
    assert KeyOf(Pair, 5) == EdgeKey(0, 3);
  }

  /** Faces (0, 1, 2) and (1, 0, 3) share the edge 0-1: half-edges 1 and 4 are twins, the rest are boundary. */
  lemma PairTwins()
    ensures Opposite(Pair, 2, 1) == Some(3) && Opposite(Pair, 2, 4) == Some(2)
    ensures Opposite(Pair, 2, 0) == None && Opposite(Pair, 2, 2) == None
    ensures Opposite(Pair, 2, 3) == None && Opposite(Pair, 2, 5) == None
    ensures BoundaryKeys(Pair, 2) == {EdgeKey(2, 0), EdgeKey(1, 2), EdgeKey(3, 1), EdgeKey(0, 3)}
  {
    PairTable();
    assert KeyOf(Pair, 0) == EdgeKey(2, 0);
    assert KeyOf(Pair, 1) == EdgeKey(0, 1);
    assert KeyOf(Pair, 2) == EdgeKey(1, 2);
    assert KeyOf(Pair, 3) == EdgeKey(3, 1);
    assert KeyOf(Pair, 4) == EdgeKey(1, 0);
    assert KeyOf(Pair, 5) == EdgeKey(0, 3);
  }

  /** Slot 3 of each record is the far corner of the other face, and four edges are boundary. */
  lemma TwoTriangles()
    ensures Records(Pair, 2) == [2, 2, 0, 3, 1, 0, 3, 3, 1, 2, 0, 1]
    ensures |BoundaryKeys(Pair, 2)| == 4
  {
    PairBoundary();
    PairTwins();
    PairRecords(Pair);
    assert [2, 2, 0, 3, 1, 0] + [3, 3, 1, 2, 0, 1] == [2, 2, 0, 3, 1, 0, 3, 3, 1, 2, 0, 1];
  }

  lemma PairBoundary()
    ensures |BoundaryKeys(Pair, 2)| == 4
  {
    var keys := {EdgeKey(2, 0), EdgeKey(1, 2), EdgeKey(3, 1), EdgeKey(0, 3)};
    PairTwins();
    assert BoundaryKeys(Pair, 2) == keys;
    assert |{EdgeKey(2, 0), EdgeKey(1, 2)}| == 2;
    assert |{EdgeKey(2, 0), EdgeKey(1, 2), EdgeKey(3, 1)}| == 3;
  }

  lemma PairRecords(src: seq<VertexId>)
    requires src == Pair
    requires Opposite(src, 2, 1) == Some(3) && Opposite(src, 2, 4) == Some(2)
    requires Opposite(src, 2, 0) == None && Opposite(src, 2, 2) == None
    requires Opposite(src, 2, 3) == None && Opposite(src, 2, 5) == None
    ensures Records(src, 2) == [2, 2, 0, 3, 1, 0] + [3, 3, 1, 2, 0, 1]
  {
    RecordLayout(src, 2, 0);
    RecordLayout(src, 2, 1);
    Halves(Records(src, 2), 6);
  }

  lemma Halves<T>(r: seq<T>, k: nat)
    requires k <= |r|
    ensures r == r[..k] + r[k..]
  {
  }

  /** Two faces that both contain the directed edge 0->1 are rejected by the duplicate check. */
  lemma SameWindingRejected()
    ensures !DistinctKeys(SameWinding, 6)
  {
    assert KeyOf(SameWinding, 1) == KeyOf(SameWinding, 4);
  }
}
