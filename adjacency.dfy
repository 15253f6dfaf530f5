/**
 * The half-edge adjacency builder: turns a flat list of 16-bit triangle
 * indices into the six-index-per-triangle layout of
 * `GL_TRIANGLES_ADJACENCY` (OpenGL 3.2 Core Profile, section 2.6.1).
 *
 * Half-edge `e` belongs to face `e / 3`.  For a face (A, B, C) the three
 * half-edges are C->A, A->B and B->C, so the head of half-edge `e` is
 * always `source[e]`.  The edge table is a map from the packed key
 * `tail | head << 16` to the half-edge that owns that directed edge.
 */
module Adjacency {
  import opened Wrappers

  /** An `unsigned short` vertex index. */
  type VertexId = x: int | 0 <= x < 0x10000

  /** One element of the half-edge arena; `twin` and `next` are arena indices. */
  datatype HalfEdge = HalfEdge(vert: VertexId, twin: Option<nat>, next: nat)

  /** The fatal "duplicated edges or inconsistent winding" condition. */
  datatype MeshError = BadMesh

  // ---------------------------------------------------------------------
  // Edge keys

  /** A directed edge, the key of the edge table. */
  datatype EdgeKey = EdgeKey(tail: VertexId, head: VertexId)
  {
    /** The key the twin is stored under. */
    function Reversed(): EdgeKey
    {
      EdgeKey(head, tail)
    }
  }

  /** The table stores `tail | head << 16`, here computed without sign extension. */
  function Packed(k: EdgeKey): (word: nat)
    ensures word < 0x1_0000_0000
  {
    k.tail + k.head * 0x10000
  }

  /** `((edgeIndex & 0xffff) << 16) | (edgeIndex >> 16)`: swaps the two halves of a packed key. */
  function SwapHalves(word: nat): nat
  {
    (word % 0x10000) * 0x10000 + word / 0x10000
  }

  /** Packing is one-to-one, and swapping halves of a packed key packs the reversed edge. */
  lemma PackedKeys(k1: EdgeKey, k2: EdgeKey)
    ensures Packed(k1) == Packed(k2) <==> k1 == k2
    ensures SwapHalves(Packed(k1)) == Packed(k1.Reversed())
  {
    assert Packed(k1) % 0x10000 == k1.tail && Packed(k1) / 0x10000 == k1.head;
    assert Packed(k2) % 0x10000 == k2.tail && Packed(k2) / 0x10000 == k2.head;
  }

  // ---------------------------------------------------------------------
  // Half-edge addressing

  /** Number of half-edges in the complete faces of `source`. */
  function Whole(source: seq<VertexId>): nat
  {
    |source| - |source| % 3
  }

  /** The next half-edge around the same face: 3i -> 3i+1 -> 3i+2 -> 3i. */
  function Next(e: nat): nat
  {
    if e % 3 == 2 then e - 2 else e + 1
  }

  /** The previous half-edge around the same face; its head is this edge's tail. */
  function Prev(e: nat): nat
  {
    if e % 3 == 0 then e + 2 else e - 1
  }

  /** Next and Prev stay inside the face of `e`. */
  lemma NextInFace(e: nat, faceCount: nat)
    requires e < 3 * faceCount
    ensures Next(e) < 3 * faceCount && Next(e) / 3 == e / 3 && Next(e) != e
    ensures Prev(e) < 3 * faceCount && Prev(e) / 3 == e / 3 && Prev(e) != e
    ensures Next(Next(e)) == Prev(e) && Next(Prev(e)) == e
  {
  }

  function Head(source: seq<VertexId>, e: nat): VertexId
    requires e < Whole(source)
  {
    source[e]
  }

  function Tail(source: seq<VertexId>, e: nat): VertexId
    requires e < Whole(source)
  {
    source[Prev(e)]
  }

  function KeyOf(source: seq<VertexId>, e: nat): EdgeKey
    requires e < Whole(source)
  {
    EdgeKey(Tail(source, e), Head(source, e))
  }

  // ---------------------------------------------------------------------
  // The edge table after the first n insertions

  /**
   * The table after inserting half-edges 0 .. n-1 in order, where a later
   * insertion under an existing key overwrites the earlier one.
   */
  function EdgeTable(source: seq<VertexId>, n: nat): map<EdgeKey, nat>
    requires n <= Whole(source)
  {
    if n == 0 then map[]
    else EdgeTable(source, n - 1)[KeyOf(source, n - 1) := n - 1]
  }

  /**
   * Every inserted half-edge's key is in the table, every entry is the
   * half-edge whose key it is stored under, and there are at most n entries.
   */
  lemma TableEntries(source: seq<VertexId>, n: nat)
    requires n <= Whole(source)
    ensures forall e :: 0 <= e < n ==> KeyOf(source, e) in EdgeTable(source, n)
    ensures forall k {:trigger EdgeTable(source, n)[k]} :: k in EdgeTable(source, n) ==>
      EdgeTable(source, n)[k] < n && KeyOf(source, EdgeTable(source, n)[k]) == k
    ensures |EdgeTable(source, n)| <= n
  {
    TableKeys(source, n);
    TableValues(source, n);
    TableSize(source, n);
  }

  lemma {:induction false} TableKeys(source: seq<VertexId>, n: nat)
    requires n <= Whole(source)
    ensures forall e :: 0 <= e < n ==> KeyOf(source, e) in EdgeTable(source, n)
  {
    if n > 0 {
      TableKeys(source, n - 1);
    }
  }

  lemma {:induction false} TableValues(source: seq<VertexId>, n: nat)
    requires n <= Whole(source)
    ensures forall k {:trigger EdgeTable(source, n)[k]} :: k in EdgeTable(source, n) ==>
      EdgeTable(source, n)[k] < n && KeyOf(source, EdgeTable(source, n)[k]) == k
  {
    if n > 0 {
      TableValues(source, n - 1);
    }
  }

  lemma {:induction false} TableSize(source: seq<VertexId>, n: nat)
    requires n <= Whole(source)
    ensures |EdgeTable(source, n)| <= n
  {
    if n > 0 {
      TableSize(source, n - 1);
    }
  }

  /** No directed edge occurs twice among half-edges 0 .. n-1. */
  ghost predicate DistinctKeys(source: seq<VertexId>, n: nat)
    requires n <= Whole(source)
  {
    forall e1, e2 :: 0 <= e1 < e2 < n ==> KeyOf(source, e1) != KeyOf(source, e2)
  }

  /** The entry count equals the number of insertions exactly when no key repeats. */
  lemma {:induction false} CountDetectsDuplicates(source: seq<VertexId>, n: nat)
    requires n <= Whole(source)
    ensures |EdgeTable(source, n)| == n <==> DistinctKeys(source, n)
  {
    if n > 0 {
      CountDetectsDuplicates(source, n - 1);
      if KeyOf(source, n - 1) in EdgeTable(source, n - 1) {
        RepeatedKey(source, n);
      } else {
        FreshKeyCount(source, n);
        if DistinctKeys(source, n - 1) {
          FreshKeyDistinct(source, n);
        } else {
          DistinctPrefix(source, n);
        }
      }
    }
  }

  lemma RepeatedKey(source: seq<VertexId>, n: nat)
    requires 0 < n <= Whole(source)
    requires KeyOf(source, n - 1) in EdgeTable(source, n - 1)
    ensures |EdgeTable(source, n)| < n
    ensures !DistinctKeys(source, n)
  {
    TableEntries(source, n - 1);
    var e := EdgeTable(source, n - 1)[KeyOf(source, n - 1)];
    assert KeyOf(source, e) == KeyOf(source, n - 1);
  }

  lemma FreshKeyCount(source: seq<VertexId>, n: nat)
    requires 0 < n <= Whole(source)
    requires KeyOf(source, n - 1) !in EdgeTable(source, n - 1)
    ensures |EdgeTable(source, n)| == |EdgeTable(source, n - 1)| + 1
  {
  }

  lemma DistinctPrefix(source: seq<VertexId>, n: nat)
    requires 0 < n <= Whole(source)
    ensures DistinctKeys(source, n) ==> DistinctKeys(source, n - 1)
  {
  }

  lemma FreshKeyDistinct(source: seq<VertexId>, n: nat)
    requires 0 < n <= Whole(source)
    requires KeyOf(source, n - 1) !in EdgeTable(source, n - 1)
    requires DistinctKeys(source, n - 1)
    ensures DistinctKeys(source, n)
  {
    TableEntries(source, n - 1);
    forall e1, e2 | 0 <= e1 < e2 < n
      ensures KeyOf(source, e1) != KeyOf(source, e2)
    {
      if e2 == n - 1 {
        assert KeyOf(source, e1) in EdgeTable(source, n - 1);
      }
    }
  }

  /** The keys and successors of the three half-edges of the face that starts at `p`. */
  lemma FaceKeys(source: seq<VertexId>, p: nat)
    requires p + 3 <= Whole(source) && p % 3 == 0
    ensures KeyOf(source, p) == EdgeKey(source[p + 2], source[p])
    ensures KeyOf(source, p + 1) == EdgeKey(source[p], source[p + 1])
    ensures KeyOf(source, p + 2) == EdgeKey(source[p + 1], source[p + 2])
    ensures Next(p) == p + 1 && Next(p + 1) == p + 2 && Next(p + 2) == p
  {
  }

  /** The three insertions of the face that starts at `p`, in the order the first loop makes them. */
  lemma FaceInsert(source: seq<VertexId>, p: nat)
    requires p + 3 <= Whole(source) && p % 3 == 0
    ensures EdgeTable(source, p + 3) ==
      EdgeTable(source, p)[EdgeKey(source[p + 2], source[p]) := p]
                          [EdgeKey(source[p], source[p + 1]) := p + 1]
                          [EdgeKey(source[p + 1], source[p + 2]) := p + 2]
  {
    TableStep(source, p);
    TableStep(source, p + 1);
    TableStep(source, p + 2);
    FaceKeys(source, p);
  }

  lemma TableStep(source: seq<VertexId>, n: nat)
    requires n < Whole(source)
    ensures EdgeTable(source, n + 1) == EdgeTable(source, n)[KeyOf(source, n) := n]
  {
  }

  /** With distinct keys, looking up a half-edge's own key gives that half-edge back. */
  lemma TableInverse(source: seq<VertexId>, n: nat, e: nat)
    requires n <= Whole(source) && DistinctKeys(source, n) && e < n
    ensures KeyOf(source, e) in EdgeTable(source, n)
    ensures EdgeTable(source, n)[KeyOf(source, e)] == e
  {
  }

  // ---------------------------------------------------------------------
  // Twins, opposite vertices and the six-slot records

  /** The entry stored under `k`, if there is one (`JUDY_GET`). */
  function Lookup(table: map<EdgeKey, nat>, k: EdgeKey): (r: Option<nat>)
    ensures r.Some? <==> k in table
    ensures r.Some? ==> table[k] == r.value
  {
    if k in table then Some(table[k]) else None
  }

  /**
   * The table as the twin loop sees it: every half-edge's key is present and
   * maps back to that half-edge, and every entry is the half-edge whose key
   * it is stored under.
   */
  ghost predicate KeyIndex(table: map<EdgeKey, nat>, source: seq<VertexId>, n: nat)
    requires n <= Whole(source)
  {
    && (forall e :: 0 <= e < n ==> KeyOf(source, e) in table && table[KeyOf(source, e)] == e)
    && (forall k {:trigger table[k]} :: k in table ==> table[k] < n && KeyOf(source, table[k]) == k)
  }

  /** A table without repeated keys indexes its half-edges exactly. */
  lemma DistinctTableIndexes(source: seq<VertexId>, n: nat)
    requires n <= Whole(source) && DistinctKeys(source, n)
    ensures KeyIndex(EdgeTable(source, n), source, n)
  {
    TableEntries(source, n);
    forall e | 0 <= e < n
      ensures KeyOf(source, e) in EdgeTable(source, n) && EdgeTable(source, n)[KeyOf(source, e)] == e
    {
      TableInverse(source, n, e);
    }
  }

  /** The half-edge stored under `e`'s swapped key, if there is one. */
  function Twin(source: seq<VertexId>, faceCount: nat, e: nat): (t: Option<nat>)
    requires 3 * faceCount <= Whole(source) && e < 3 * faceCount
    ensures t.Some? ==> t.value < 3 * faceCount && KeyOf(source, t.value) == KeyOf(source, e).Reversed()
    ensures t.None? ==> forall x :: 0 <= x < 3 * faceCount ==> KeyOf(source, x) != KeyOf(source, e).Reversed()
  {
    TableEntries(source, 3 * faceCount);
    Lookup(EdgeTable(source, 3 * faceCount), KeyOf(source, e).Reversed())
  }

  /** `Twin->Next->Vert`: the corner of the neighbouring face that is not on edge `e`. */
  function Opposite(source: seq<VertexId>, faceCount: nat, e: nat): Option<VertexId>
    requires 3 * faceCount <= Whole(source) && e < 3 * faceCount
  {
    match Twin(source, faceCount, e)
    case Some(t) => NextInFace(t, faceCount); Some(source[Next(t)])
    case None => None
  }

  /** Keys whose swapped key is absent: the boundary edges that are counted. */
  function BoundaryKeys(source: seq<VertexId>, faceCount: nat): set<EdgeKey>
    requires 3 * faceCount <= Whole(source)
  {
    var table := EdgeTable(source, 3 * faceCount);
    set k | k in table && k.Reversed() !in table
  }

  // ---------------------------------------------------------------------
  // The arena and the records read from it

  /** Every `next` and `twin` of the arena points into the arena. */
  ghost predicate Links(arena: seq<HalfEdge>)
  {
    forall e :: 0 <= e < |arena| ==>
      arena[e].next < |arena| && (arena[e].twin.Some? ==> arena[e].twin.value < |arena|)
  }

  /** The arena after the first two loops: heads, twins and successors of all half-edges. */
  function LinkedArena(source: seq<VertexId>, faceCount: nat): (arena: seq<HalfEdge>)
    requires 3 * faceCount <= Whole(source)
    ensures |arena| == 3 * faceCount && Links(arena)
  {
    seq(3 * faceCount, e requires 0 <= e < 3 * faceCount =>
      HalfEdge(source[e], Twin(source, faceCount, e), Next(e)))
  }

  /** `Twin ? Twin->Next->Vert : nothing` on an arena. */
  function Far(arena: seq<HalfEdge>, e: nat): Option<VertexId>
    requires Links(arena) && e < |arena|
  {
    match arena[e].twin
    case Some(t) => Some(arena[arena[t].next].vert)
    case None => None
  }

  /**
   * The six indices written for face `f`: corners C, A, B in slots 0, 2, 4;
   * the far vertex across C->A, A->B and B->C in slots 1, 3, 5, or on a
   * boundary edge a copy of slot 0, 1 and 2 respectively.
   */
  function FaceRecord(arena: seq<HalfEdge>, f: nat): (r: seq<VertexId>)
    requires Links(arena) && 3 * f + 3 <= |arena|
    ensures |r| == 6
  {
    var e := 3 * f;
    var s0 := arena[e + 2].vert;
    var s1 := Far(arena, e).GetOr(s0);
    var s2 := arena[e].vert;
    var s3 := Far(arena, e + 1).GetOr(s1);
    var s4 := arena[e + 1].vert;
    var s5 := Far(arena, e + 2).GetOr(s2);
    [s0, s1, s2, s3, s4, s5]
  }

  /** The records of the first `faceCount` faces, one after the other. */
  function ArenaRecords(arena: seq<HalfEdge>, faceCount: nat): (out: seq<VertexId>)
    requires Links(arena) && 3 * faceCount <= |arena|
    ensures |out| == 6 * faceCount
  {
    seq(6 * faceCount, j requires 0 <= j < 6 * faceCount => FaceRecord(arena, j / 6)[j % 6])
  }

  /** The whole output buffer for a clean mesh, `6 * faceCount` indices. */
  function Records(source: seq<VertexId>, faceCount: nat): (out: seq<VertexId>)
    requires 3 * faceCount <= Whole(source)
    ensures |out| == 6 * faceCount
  {
    ArenaRecords(LinkedArena(source, faceCount), faceCount)
  }

  // ---------------------------------------------------------------------
  // The builder

  method ComputeAdjacency(dest: array<VertexId>, source: seq<VertexId>, faceCount: nat)
    returns (result: Result<nat, MeshError>)
    requires 3 * faceCount <= |source|
    requires 6 * faceCount <= dest.Length
    modifies dest
    ensures 3 * faceCount <= Whole(source)
    ensures result.Err? <==> !DistinctKeys(source, 3 * faceCount)
    ensures result.Err? ==> unchanged(dest)
    ensures result.Ok? ==> result.value == |BoundaryKeys(source, faceCount)|
    ensures result.Ok? ==> dest[..6 * faceCount] == Records(source, faceCount)
    ensures result.Ok? ==> dest[6 * faceCount..] == old(dest[6 * faceCount..])
  {
    var edges, table := BuildHalfEdges(source, faceCount);

    // Verify that the mesh is clean:
    CountDetectsDuplicates(source, 3 * faceCount);
    if |table| != 3 * faceCount {
      return Err(BadMesh);
    }

    DistinctTableIndexes(source, 3 * faceCount);
    var boundaryCount := LinkTwins(edges, table, source, faceCount);
    ArenaIsLinked(edges[..], table, source, faceCount);
    CountedIsBoundary(source, faceCount);

    if boundaryCount > 0 {
      EmitWithFallback(dest, edges[..], faceCount);
    } else {
      WatertightArena(source, faceCount);
      EmitWatertight(dest, edges[..], faceCount);
    }
    return Ok(boundaryCount);
  }

  /** The first loop: every half-edge gets its head and next, and goes into the table. */
  method BuildHalfEdges(source: seq<VertexId>, faceCount: nat) returns (edges: array<HalfEdge>, table: map<EdgeKey, nat>)
    requires 3 * faceCount <= |source|
    ensures fresh(edges) && edges.Length == 3 * faceCount
    ensures 3 * faceCount <= Whole(source)
    ensures table == EdgeTable(source, 3 * faceCount)
    ensures forall e :: 0 <= e < 3 * faceCount ==> edges[e] == HalfEdge(source[e], None, Next(e))
  {
    edges := new HalfEdge[3 * faceCount](_ => HalfEdge(0, None, 0));
    table := map[];
    var p := 0;
    var faceIndex := 0;
    while faceIndex < faceCount
      invariant 0 <= faceIndex <= faceCount && p == 3 * faceIndex
      invariant table == EdgeTable(source, p)
      invariant forall e :: 0 <= e < p ==> edges[e] == HalfEdge(source[e], None, Next(e))
    {
      table := InsertFace(edges, table, source, p);
      p := p + 3;
      faceIndex := faceIndex + 1;
    }
  }

  /** One pass of the first loop: the three half-edges of the face that starts at `p`. */
  method InsertFace(edges: array<HalfEdge>, table: map<EdgeKey, nat>, source: seq<VertexId>, p: nat)
    returns (table': map<EdgeKey, nat>)
    requires p + 3 <= Whole(source) && p % 3 == 0 && p + 3 <= edges.Length
    requires table == EdgeTable(source, p)
    modifies edges
    ensures table' == EdgeTable(source, p + 3)
    ensures forall e :: 0 <= e < edges.Length && !(p <= e < p + 3) ==> edges[e] == old(edges[e])
    ensures forall e :: p <= e < p + 3 ==> edges[e] == HalfEdge(source[e], None, Next(e))
  {
    var a, b, c := source[p], source[p + 1], source[p + 2];
    FaceKeys(source, p);
    FaceInsert(source, p);
    // The half-edge that goes from C to A:
    table' := table[EdgeKey(c, a) := p];
    edges[p] := HalfEdge(a, None, p + 1);
    // The half-edge that goes from A to B:
    table' := table'[EdgeKey(a, b) := p + 1];
    edges[p + 1] := HalfEdge(b, None, p + 2);
    // The half-edge that goes from B to C:
    table' := table'[EdgeKey(b, c) := p + 2];
    edges[p + 2] := HalfEdge(c, None, p);
  }

  /** Whether the twin loop has already visited key `k` or its swapped key. */
  ghost predicate Linked(table: map<EdgeKey, nat>, remaining: set<EdgeKey>, k: EdgeKey)
  {
    k !in remaining || (k.Reversed() in table && k.Reversed() !in remaining)
  }

  /** The boundary keys the twin loop has counted so far. */
  ghost function CountedBoundary(table: map<EdgeKey, nat>, remaining: set<EdgeKey>): set<EdgeKey>
  {
    set k | k in table && k !in remaining && k.Reversed() !in table
  }

  /** The twin loop: visits every key once, in any order, and links both half-edges of each pair. */
  method LinkTwins(edges: array<HalfEdge>, table: map<EdgeKey, nat>, ghost source: seq<VertexId>, faceCount: nat)
    returns (boundaryCount: nat)
    requires 3 * faceCount <= Whole(source) && edges.Length == 3 * faceCount
    requires KeyIndex(table, source, 3 * faceCount)
    requires forall e :: 0 <= e < 3 * faceCount ==> edges[e].twin.None?
    modifies edges
    ensures forall e :: 0 <= e < 3 * faceCount ==>
      edges[e] == old(edges[e]).(twin := Lookup(table, KeyOf(source, e).Reversed()))
    ensures boundaryCount == |CountedBoundary(table, {})|
  {
    var remaining := table.Keys;
    boundaryCount := 0;
    while remaining != {}
      invariant remaining <= table.Keys
      invariant forall e :: 0 <= e < 3 * faceCount ==>
        edges[e] == old(edges[e]).(twin :=
          if Linked(table, remaining, KeyOf(source, e)) then Lookup(table, KeyOf(source, e).Reversed()) else None)
      invariant boundaryCount == |CountedBoundary(table, remaining)|
      decreases remaining
    {
      var key :| key in remaining;
      var e := table[key];
      var twinKey := key.Reversed();
      if twinKey in table {
        var t := table[twinKey];
        edges[t] := edges[t].(twin := Some(e));
        edges[e] := edges[e].(twin := Some(t));
      } else {
        boundaryCount := boundaryCount + 1;
      }
      CountStep(table, remaining, key);
      remaining := remaining - {key};
    }
  }

  /** Visiting one more key adds it to the counted boundary exactly when its swapped key is absent. */
  lemma CountStep(table: map<EdgeKey, nat>, remaining: set<EdgeKey>, key: EdgeKey)
    requires key in remaining
    ensures |CountedBoundary(table, remaining - {key})| ==
      |CountedBoundary(table, remaining)| + (if key in table && key.Reversed() !in table then 1 else 0)
  {
    if key in table && key.Reversed() !in table {
      assert CountedBoundary(table, remaining - {key}) == CountedBoundary(table, remaining) + {key};
    } else {
      assert CountedBoundary(table, remaining - {key}) == CountedBoundary(table, remaining);
    }
  }

  /** The arena the twin loop leaves behind is `LinkedArena`. */
  lemma ArenaIsLinked(arena: seq<HalfEdge>, table: map<EdgeKey, nat>, source: seq<VertexId>, faceCount: nat)
    requires 3 * faceCount <= Whole(source) && table == EdgeTable(source, 3 * faceCount) && |arena| == 3 * faceCount
    requires forall e :: 0 <= e < 3 * faceCount ==>
      arena[e] == HalfEdge(source[e], Lookup(table, KeyOf(source, e).Reversed()), Next(e))
    ensures arena == LinkedArena(source, faceCount)
  {
  }

  /**
   * The emission loop used when some edge has no twin.  The arena is only
   * read here, so it is passed by value.
   */
  method EmitWithFallback(dest: array<VertexId>, edges: seq<HalfEdge>, faceCount: nat)
    requires |edges| == 3 * faceCount && 6 * faceCount <= dest.Length && Links(edges)
    modifies dest
    ensures dest[..6 * faceCount] == ArenaRecords(edges, faceCount)
    ensures dest[6 * faceCount..] == old(dest[6 * faceCount..])
  {
    var faceIndex := 0;
    while faceIndex < faceCount
      invariant 0 <= faceIndex <= faceCount
      invariant dest[..6 * faceIndex] == ArenaRecords(edges, faceIndex)
      invariant dest[6 * faceCount..] == old(dest[6 * faceCount..])
    {
      EmitFaceWithFallback(dest, edges, faceIndex);
      assert dest[..6 * faceIndex + 6] == dest[..6 * faceIndex] + dest[6 * faceIndex..6 * faceIndex + 6];
      RecordsExtend(edges, faceIndex);
      faceIndex := faceIndex + 1;
    }
  }

  /** One pass of the guarded emission loop: the six slots of face `f`, with the fallback. */
  method EmitFaceWithFallback(dest: array<VertexId>, edges: seq<HalfEdge>, f: nat)
    requires Links(edges) && 3 * f + 3 <= |edges| && 6 * f + 6 <= dest.Length
    modifies dest
    ensures dest[..6 * f] == old(dest[..6 * f])
    ensures dest[6 * f..6 * f + 6] == FaceRecord(edges, f)
    ensures dest[6 * f + 6..] == old(dest[6 * f + 6..])
  {
    var d, e := 6 * f, 3 * f;
    FaceRecordAt(edges, f);
    dest[d] := edges[e + 2].vert;
    dest[d + 1] := if edges[e].twin.Some? then edges[edges[edges[e].twin.value].next].vert else dest[d];
    dest[d + 2] := edges[e].vert;
    dest[d + 3] := if edges[e + 1].twin.Some? then edges[edges[edges[e + 1].twin.value].next].vert else dest[d + 1];
    dest[d + 4] := edges[e + 1].vert;
    dest[d + 5] := if edges[e + 2].twin.Some? then edges[edges[edges[e + 2].twin.value].next].vert else dest[d + 2];
  }

  /** The emission loop used when every edge has a twin: no fallback is needed. */
  method EmitWatertight(dest: array<VertexId>, edges: seq<HalfEdge>, faceCount: nat)
    requires |edges| == 3 * faceCount && 6 * faceCount <= dest.Length && Links(edges)
    requires forall e :: 0 <= e < 3 * faceCount ==> edges[e].twin.Some?
    modifies dest
    ensures dest[..6 * faceCount] == ArenaRecords(edges, faceCount)
    ensures dest[6 * faceCount..] == old(dest[6 * faceCount..])
  {
    var faceIndex := 0;
    while faceIndex < faceCount
      invariant 0 <= faceIndex <= faceCount
      invariant dest[..6 * faceIndex] == ArenaRecords(edges, faceIndex)
      invariant dest[6 * faceCount..] == old(dest[6 * faceCount..])
    {
      EmitFaceWatertight(dest, edges, faceIndex);
      assert dest[..6 * faceIndex + 6] == dest[..6 * faceIndex] + dest[6 * faceIndex..6 * faceIndex + 6];
      RecordsExtend(edges, faceIndex);
      faceIndex := faceIndex + 1;
    }
  }

  /** One pass of the unguarded emission loop: the six slots of face `f`, every twin present. */
  method EmitFaceWatertight(dest: array<VertexId>, edges: seq<HalfEdge>, f: nat)
    requires Links(edges) && 3 * f + 3 <= |edges| && 6 * f + 6 <= dest.Length
    requires edges[3 * f].twin.Some? && edges[3 * f + 1].twin.Some? && edges[3 * f + 2].twin.Some?
    modifies dest
    ensures dest[..6 * f] == old(dest[..6 * f])
    ensures dest[6 * f..6 * f + 6] == FaceRecord(edges, f)
    ensures dest[6 * f + 6..] == old(dest[6 * f + 6..])
  {
    var d, e := 6 * f, 3 * f;
    FaceRecordAt(edges, f);
    dest[d] := edges[e + 2].vert;
    dest[d + 1] := edges[edges[edges[e].twin.value].next].vert;
    dest[d + 2] := edges[e].vert;
    dest[d + 3] := edges[edges[edges[e + 1].twin.value].next].vert;
    dest[d + 4] := edges[e + 1].vert;
    dest[d + 5] := edges[edges[edges[e + 2].twin.value].next].vert;
  }


  /** The six slots of a face record, read off the arena the way the emission loops read them. */
  lemma FaceRecordAt(arena: seq<HalfEdge>, f: nat)
    requires Links(arena) && 3 * f + 3 <= |arena|
    ensures var e, r := 3 * f, FaceRecord(arena, f);
      && r[0] == arena[e + 2].vert
      && r[1] == (if arena[e].twin.Some? then arena[arena[arena[e].twin.value].next].vert else r[0])
      && r[2] == arena[e].vert
      && r[3] == (if arena[e + 1].twin.Some? then arena[arena[arena[e + 1].twin.value].next].vert else r[1])
      && r[4] == arena[e + 1].vert
      && r[5] == (if arena[e + 2].twin.Some? then arena[arena[arena[e + 2].twin.value].next].vert else r[2])
  {
  }

  /** The records of one more face are the old records followed by that face's record. */
  lemma RecordsExtend(arena: seq<HalfEdge>, faceCount: nat)
    requires Links(arena) && 3 * faceCount + 3 <= |arena|
    ensures ArenaRecords(arena, faceCount + 1) == ArenaRecords(arena, faceCount) + FaceRecord(arena, faceCount)
  {
    forall j | 0 <= j < 6 * faceCount + 6
      ensures ArenaRecords(arena, faceCount + 1)[j] == (ArenaRecords(arena, faceCount) + FaceRecord(arena, faceCount))[j]
    {
      if j >= 6 * faceCount {
        assert j / 6 == faceCount && j % 6 == j - 6 * faceCount;
      }
    }
  }

  /** The twin loop counts exactly the boundary keys. */
  lemma CountedIsBoundary(source: seq<VertexId>, faceCount: nat)
    requires 3 * faceCount <= Whole(source)
    ensures CountedBoundary(EdgeTable(source, 3 * faceCount), {}) == BoundaryKeys(source, faceCount)
  {
  }

  /** Without boundary keys every half-edge of the linked arena has a twin. */
  lemma WatertightArena(source: seq<VertexId>, faceCount: nat)
    requires 3 * faceCount <= Whole(source) && |BoundaryKeys(source, faceCount)| == 0
    ensures forall e :: 0 <= e < 3 * faceCount ==> LinkedArena(source, faceCount)[e].twin.Some?
  {
    BoundaryFree(source, faceCount);
  }

  /** The boundary keys are exactly the keys of the half-edges that have no twin. */
  lemma BoundaryIsUntwinned(source: seq<VertexId>, faceCount: nat)
    requires 3 * faceCount <= Whole(source)
    ensures BoundaryKeys(source, faceCount) ==
      set e | 0 <= e < 3 * faceCount && Twin(source, faceCount, e).None? :: KeyOf(source, e)
  {
    TableEntries(source, 3 * faceCount);
    var table := EdgeTable(source, 3 * faceCount);
    var untwinned := set e | 0 <= e < 3 * faceCount && Twin(source, faceCount, e).None? :: KeyOf(source, e);
    forall k | k in BoundaryKeys(source, faceCount)
      ensures k in untwinned
    {
      var e := table[k];
      assert KeyOf(source, e) == k;
    }
  }

  /** A zero boundary count means every half-edge has a twin, and conversely. */
  lemma BoundaryFree(source: seq<VertexId>, faceCount: nat)
    requires 3 * faceCount <= Whole(source)
    ensures |BoundaryKeys(source, faceCount)| == 0 <==>
      forall e :: 0 <= e < 3 * faceCount ==> Twin(source, faceCount, e).Some?
  {
    TableEntries(source, 3 * faceCount);
    var table := EdgeTable(source, 3 * faceCount);
    if |BoundaryKeys(source, faceCount)| == 0 {
      forall e | 0 <= e < 3 * faceCount
        ensures Twin(source, faceCount, e).Some?
      {
        assert KeyOf(source, e) !in BoundaryKeys(source, faceCount);
      }
    } else {
      var k :| k in BoundaryKeys(source, faceCount);
      var e := table[k];
      assert Twin(source, faceCount, e).None?;
    }
  }

  // ---------------------------------------------------------------------
  // Properties of the result

  /** On a clean mesh the twin relation is symmetric. */
  lemma TwinSymmetric(source: seq<VertexId>, faceCount: nat, e: nat)
    requires 3 * faceCount <= Whole(source) && DistinctKeys(source, 3 * faceCount)
    requires e < 3 * faceCount && Twin(source, faceCount, e).Some?
    ensures Twin(source, faceCount, Twin(source, faceCount, e).value) == Some(e)
  {
    var t := Twin(source, faceCount, e).value;
    assert KeyOf(source, t).Reversed() == KeyOf(source, e);
    TableInverse(source, 3 * faceCount, e);
  }

  /**
   * The opposite vertex is the third corner of the twin's face: that face's
   * corners are the two ends of edge `e` and the opposite vertex.
   */
  lemma OppositeCorner(source: seq<VertexId>, faceCount: nat, e: nat)
    requires 3 * faceCount <= Whole(source) && e < 3 * faceCount
    requires Opposite(source, faceCount, e).Some?
    ensures var g, v := Twin(source, faceCount, e).value / 3, Opposite(source, faceCount, e).value;
      multiset{source[3 * g], source[3 * g + 1], source[3 * g + 2]} == multiset{Tail(source, e), Head(source, e), v}
  {
    var t := Twin(source, faceCount, e).value;
    NextInFace(t, faceCount);
    var g := t / 3;
    assert t == 3 * g || t == 3 * g + 1 || t == 3 * g + 2;
  }

  /** Reading `Twin->Next->Vert` in the linked arena gives the opposite vertex. */
  lemma FarIsOpposite(source: seq<VertexId>, faceCount: nat, e: nat)
    requires 3 * faceCount <= Whole(source) && e < 3 * faceCount
    ensures LinkedArena(source, faceCount)[e].vert == source[e]
    ensures Far(LinkedArena(source, faceCount), e) == Opposite(source, faceCount, e)
  {
    if Twin(source, faceCount, e).Some? {
      NextInFace(Twin(source, faceCount, e).value, faceCount);
    }
  }

  /** Face f's six indices in the output are that face's record. */
  lemma RecordsSlice(arena: seq<HalfEdge>, faceCount: nat, f: nat)
    requires Links(arena) && 3 * faceCount <= |arena| && f < faceCount
    ensures ArenaRecords(arena, faceCount)[6 * f..6 * f + 6] == FaceRecord(arena, f)
  {
    forall k | 0 <= k < 6
      ensures ArenaRecords(arena, faceCount)[6 * f + k] == FaceRecord(arena, f)[k]
    {
      assert (6 * f + k) / 6 == f && (6 * f + k) % 6 == k;
    }
  }

  /** A face record in terms of `Far`, one slot at a time. */
  lemma FaceRecordFar(arena: seq<HalfEdge>, f: nat)
    requires Links(arena) && 3 * f + 3 <= |arena|
    ensures var e, r := 3 * f, FaceRecord(arena, f);
      && r[0] == arena[e + 2].vert
      && r[1] == Far(arena, e).GetOr(r[0])
      && r[2] == arena[e].vert
      && r[3] == Far(arena, e + 1).GetOr(r[1])
      && r[4] == arena[e + 1].vert
      && r[5] == Far(arena, e + 2).GetOr(r[2])
  {
  }

  /** Face f's record in the linked arena, in terms of the mesh itself. */
  lemma LinkedFaceRecord(source: seq<VertexId>, faceCount: nat, f: nat)
    requires 3 * faceCount <= Whole(source) && f < faceCount
    ensures var a, b, c := source[3 * f], source[3 * f + 1], source[3 * f + 2];
      var o0, o1, o2 := Opposite(source, faceCount, 3 * f), Opposite(source, faceCount, 3 * f + 1),
                        Opposite(source, faceCount, 3 * f + 2);
      FaceRecord(LinkedArena(source, faceCount), f) == [c, o0.GetOr(c), a, o1.GetOr(o0.GetOr(c)), b, o2.GetOr(a)]
  {
    FaceRecordFar(LinkedArena(source, faceCount), f);
    FarIsOpposite(source, faceCount, 3 * f);
    FarIsOpposite(source, faceCount, 3 * f + 1);
    FarIsOpposite(source, faceCount, 3 * f + 2);
  }

  /**
   * The record of face f = (A, B, C): C, the vertex across C->A (else C), A,
   * the vertex across A->B (else whatever slot 1 holds), B, the vertex
   * across B->C (else A).
   */
  lemma RecordLayout(source: seq<VertexId>, faceCount: nat, f: nat)
    requires 3 * faceCount <= Whole(source) && f < faceCount
    ensures var a, b, c := source[3 * f], source[3 * f + 1], source[3 * f + 2];
      var o0, o1, o2 := Opposite(source, faceCount, 3 * f), Opposite(source, faceCount, 3 * f + 1),
                        Opposite(source, faceCount, 3 * f + 2);
      Records(source, faceCount)[6 * f..6 * f + 6] == [c, o0.GetOr(c), a, o1.GetOr(o0.GetOr(c)), b, o2.GetOr(a)]
  {
    RecordsSlice(LinkedArena(source, faceCount), faceCount, f);
    LinkedFaceRecord(source, faceCount, f);
  }

  /** On a watertight mesh every odd slot is the opposite vertex of its edge. */
  lemma WatertightRecords(source: seq<VertexId>, faceCount: nat, f: nat)
    requires 3 * faceCount <= Whole(source) && f < faceCount
    requires |BoundaryKeys(source, faceCount)| == 0
    ensures var o0, o1, o2 := Opposite(source, faceCount, 3 * f), Opposite(source, faceCount, 3 * f + 1),
                              Opposite(source, faceCount, 3 * f + 2);
      && o0.Some? && o1.Some? && o2.Some?
      && Records(source, faceCount)[6 * f..6 * f + 6] ==
         [source[3 * f + 2], o0.value, source[3 * f], o1.value, source[3 * f + 1], o2.value]
  {
    BoundaryFree(source, faceCount);
    assert Twin(source, faceCount, 3 * f).Some?;
    assert Twin(source, faceCount, 3 * f + 1).Some?;
    assert Twin(source, faceCount, 3 * f + 2).Some?;
    RecordLayout(source, faceCount, f);
  }

  /** Every emitted index is one of the mesh's own indices, so it is below any bound they share. */
  lemma RecordsInRange(source: seq<VertexId>, faceCount: nat, vertCount: nat)
    requires 3 * faceCount <= Whole(source)
    requires forall i :: 0 <= i < 3 * faceCount ==> source[i] < vertCount
    ensures forall j :: 0 <= j < 6 * faceCount ==> Records(source, faceCount)[j] < vertCount
  {
    ArenaRecordsInRange(LinkedArena(source, faceCount), faceCount, vertCount);
  }

  /** Every index a record holds is the `vert` of some half-edge of the arena. */
  lemma ArenaRecordsInRange(arena: seq<HalfEdge>, faceCount: nat, vertCount: nat)
    requires Links(arena) && 3 * faceCount <= |arena|
    requires forall e :: 0 <= e < |arena| ==> arena[e].vert < vertCount
    ensures forall j :: 0 <= j < 6 * faceCount ==> ArenaRecords(arena, faceCount)[j] < vertCount
  {
    forall j | 0 <= j < 6 * faceCount
      ensures ArenaRecords(arena, faceCount)[j] < vertCount
    {
      FaceRecordFar(arena, j / 6);
    }
  }
}
