/** The polygon, `TGeometry` of src/physics/geometry.hpp: a closed ring of
    vertices and the faces between consecutive vertices, the last face
    running from the last vertex back to the first. Interior points lie to
    the right of every face (y points down). */
module Geometry {
  import opened Vectors
  import opened Faces
  import opened Wrappers

  /** A polygon vertex: a `TPoint` with its `isWallFollows` tag, which says
      whether the face starting at this vertex is a wall. */
  datatype Vertex = Vertex(pos: Vec, isWallFollows: bool)

  datatype Geometry = Geometry(coords: seq<Vertex>, faces: seq<Face>)

  /** `get_next_idx`: the index after `i` on a ring of `n` vertices. */
  function NextIdx(n: nat, i: int): (r: int)
    requires 0 <= i < n
    ensures 0 <= r < n
    ensures r == (i + 1) % n
  {
    if i == n - 1 then 0 else i + 1
  }

  /** `get_prev_idx`: the index before `i` on a ring of `n` vertices. */
  function PrevIdx(n: nat, i: int): (r: int)
    requires 0 <= i < n
    ensures 0 <= r < n
    ensures r == (i + n - 1) % n
  {
    if i == 0 then n - 1 else WrapOnce(i + n - 1, n); i - 1
  }

  lemma WrapOnce(x: int, n: int)
    requires 0 < n <= x < 2 * n
    ensures x % n == x - n
  {
  }

  /** The face from vertex `i` to the vertex after it. */
  function Edge(coords: seq<Vertex>, i: int): Face
    requires 0 <= i < |coords|
  {
    Face(coords[i].pos, coords[NextIdx(|coords|, i)].pos)
  }

  /** The geometry's faces are the edges of its ring of vertices, one per
      vertex, as the constructor builds them. */
  ghost predicate Valid(g: Geometry)
  {
    && |g.faces| == |g.coords|
    && forall i :: 0 <= i < |g.faces| ==> g.faces[i] == Edge(g.coords, i)
  }

  /** The `TGeometry` constructor: one face per vertex, in order. */
  method MakeGeometry(coords: seq<Vertex>) returns (g: Geometry)
    ensures g.coords == coords
    ensures Valid(g)
  {
    var faces: seq<Face> := [];
    var i := 0;
    while i < |coords|
      invariant 0 <= i <= |coords|
      invariant |faces| == i
      invariant forall k :: 0 <= k < i ==> faces[k] == Edge(coords, k)
    {
      var beg := coords[i].pos;
      var end := coords[NextIdx(|coords|, i)].pos;
      faces := faces + [Face(beg, end)];
      i := i + 1;
    }
    g := Geometry(coords, faces);
  }

  /** `isWall`: the tag of vertex `i`, i.e. of the face that starts there. */
  function IsWall(g: Geometry, i: int): (r: bool)
    requires 0 <= i < |g.coords|
    ensures Valid(g) ==> g.faces[i].beg == g.coords[i].pos
    ensures r == g.coords[i].isWallFollows
  {
    g.coords[i].isWallFollows
  }

  /** `getFace`: the vector along face `i`; added to vertex `i` it reaches
      the next vertex of the ring. */
  function GetFace(g: Geometry, i: int): (r: Vec)
    requires 0 <= i < |g.coords|
    ensures Add(g.coords[i].pos, r) == g.coords[NextIdx(|g.coords|, i)].pos
    ensures Valid(g) ==> r == Dir(g.faces[i])
  {
    Sub(g.coords[NextIdx(|g.coords|, i)].pos, g.coords[i].pos)
  }

  /** `isInside(pnt, iFace)`: on the right of face `iFace`, or outside the
      band it sweeps along its normal. It is false exactly when `p` is not
      strictly on the right and projects onto the segment. */
  function IsInsideFace(g: Geometry, p: Vec, iFace: int): (r: bool)
    requires 0 <= iFace < |g.faces|
    ensures var f := g.faces[iFace];
            !r <==> !OnTheRight(f, p) && 0.0 <= Dot(Dir(f), Sub(p, f.beg)) <= NormSq(Dir(f))
  {
    var f := g.faces[iFace];
    OnTheRight(f, p) || WithinScope(f, p)
  }

  /** `isInside(pnt)`: the loop that returns false at the first face `p` is
      not strictly on the right of. */
  function AllOnTheRight(faces: seq<Face>, p: Vec): (r: bool)
    ensures r <==> forall i :: 0 <= i < |faces| ==> OnTheRight(faces[i], p)
  {
    if |faces| == 0 then true
    else if !OnTheRight(faces[0], p) then false
    else
      var rest := AllOnTheRight(faces[1..], p);
      assert forall i :: 1 <= i < |faces| ==> faces[i] == faces[1..][i - 1];
      rest
  }

  function IsInside(g: Geometry, p: Vec): (r: bool)
    ensures r <==> forall i :: 0 <= i < |g.faces| ==> OnTheRight(g.faces[i], p)
  {
    AllOnTheRight(g.faces, p)
  }

  // ---------------------------------------------------------------------
  // Inflation

  /** `lens[i]` is the (positive) length of edge `i`: the norm the source
      computes when it normalises the edge's tangent. */
  ghost predicate EdgeLengths(coords: seq<Vertex>, lens: seq<real>)
  {
    && |lens| == |coords|
    && forall i :: 0 <= i < |coords| ==> HasLength(Edge(coords, i), lens[i])
  }

  /** Edge `i` moved outwards by `distance`. */
  function ShiftedEdge(coords: seq<Vertex>, distance: real, lens: seq<real>, i: int): Face
    requires EdgeLengths(coords, lens)
    requires 0 <= i < |coords|
  {
    ShiftOut(Edge(coords, i), distance, lens[i])
  }

  /** Vertex `i` of the inflated ring: where the shifted edges before and
      after vertex `i` cross, or `None` where they are parallel. */
  function InflatedVertex(coords: seq<Vertex>, distance: real, lens: seq<real>, i: int): (r: Option<Vec>)
    requires EdgeLengths(coords, lens)
    requires 0 <= i < |coords|
    ensures var j := PrevIdx(|coords|, i);
            r.Some? <==> Cross(Dir(Edge(coords, j)), Dir(Edge(coords, i))) != 0.0
    ensures var j := PrevIdx(|coords|, i);
            r.Some? ==>
              && SignedOffset(Edge(coords, j), lens[j], r.value) == distance
              && SignedOffset(Edge(coords, i), lens[i], r.value) == distance
  {
    var j := PrevIdx(|coords|, i);
    var first := ShiftedEdge(coords, distance, lens, j);
    var second := ShiftedEdge(coords, distance, lens, i);
    var r := Intersect(first, second);
    if r.Some? then
      ShiftedLineOffset(Edge(coords, j), distance, lens[j], r.value);
      ShiftedLineOffset(Edge(coords, i), distance, lens[i], r.value);
      r
    else
      r
  }

  /** `getCoordsInflated`: shift every edge out by `distance`, then
      intersect each pair of neighbouring shifted edges. */
  method GetCoordsInflated(g: Geometry, distance: real, lens: seq<real>) returns (r: seq<Option<Vec>>)
    requires EdgeLengths(g.coords, lens)
    ensures |r| == |g.coords|
    ensures forall i :: 0 <= i < |r| ==> r[i] == InflatedVertex(g.coords, distance, lens, i)
  {
    var n := |g.coords|;
    var edges: seq<Face> := [];
    var i := 0;
    while i < n
      invariant 0 <= i <= n
      invariant |edges| == i
      invariant forall k :: 0 <= k < i ==> edges[k] == ShiftedEdge(g.coords, distance, lens, k)
    {
      var edge := Face(g.coords[i].pos, g.coords[NextIdx(n, i)].pos);
      edges := edges + [ShiftOut(edge, distance, lens[i])];
      i := i + 1;
    }
    r := [];
    i := 0;
    while i < |edges|
      invariant 0 <= i <= n
      invariant |r| == i
      invariant forall k :: 0 <= k < i ==> r[k] == InflatedVertex(g.coords, distance, lens, k)
    {
      var first := edges[PrevIdx(n, i)];
      var second := edges[i];
      r := r + [Intersect(first, second)];
      i := i + 1;
    }
  }

  // ---------------------------------------------------------------------
  // Properties

  /** The two index helpers undo each other, and both wrap around the ring. */
  lemma NextPrevInverse(n: nat, i: int)
    requires 0 <= i < n
    ensures PrevIdx(n, NextIdx(n, i)) == i
    ensures NextIdx(n, PrevIdx(n, i)) == i
    ensures NextIdx(n, n - 1) == 0 && PrevIdx(n, 0) == n - 1
  {
  }

  /** The ring closes: every face ends where the next one begins, and the
      last face ends at the first vertex. */
  lemma FacesCloseTheRing(g: Geometry, i: int)
    requires Valid(g)
    requires 0 <= i < |g.faces|
    ensures g.faces[i].end == g.faces[NextIdx(|g.faces|, i)].beg
    ensures i == |g.faces| - 1 ==> g.faces[i].end == g.coords[0].pos
    ensures i < |g.faces| - 1 ==> g.faces[i].end == g.coords[i + 1].pos
  {
  }

  /** Inside means inside with respect to every single face: the strict
      convex test implies the per-face test. */
  lemma InsideImpliesInsideEveryFace(g: Geometry, p: Vec, i: int)
    requires 0 <= i < |g.faces|
    requires IsInside(g, p)
    ensures IsInsideFace(g, p, i)
  {
  }

  /** One face with `p` not strictly on its right is enough to put `p`
      outside. */
  lemma OneFaceExcludes(g: Geometry, p: Vec, i: int)
    requires 0 <= i < |g.faces|
    requires !OnTheRight(g.faces[i], p)
    ensures !IsInside(g, p)
  {
  }

  /** A point on the line of any face is not inside: the test is strict. */
  lemma OnFaceLineNotInside(g: Geometry, p: Vec, i: int)
    requires 0 <= i < |g.faces|
    requires Cross(Dir(g.faces[i]), Sub(p, g.faces[i].beg)) == 0.0
    ensures !IsInside(g, p)
  {
    OnTheRightByNormal(g.faces[i], p);
  }

  /** No vertex of the polygon is inside it. */
  lemma VertexNotInside(g: Geometry, i: int)
    requires Valid(g)
    requires 0 <= i < |g.coords|
    ensures !IsInside(g, g.coords[i].pos)
  {
    assert Sub(g.coords[i].pos, g.faces[i].beg) == Zero;
    OnFaceLineNotInside(g, g.coords[i].pos, i);
  }

  function Square(): seq<Vertex>
  {
    [Vertex(Vec(0.0, 0.0), true), Vertex(Vec(10.0, 0.0), true),
     Vertex(Vec(10.0, 10.0), true), Vertex(Vec(0.0, 10.0), true)]
  }

  function SquareFaces(): seq<Face>
  {
    [Face(Vec(0.0, 0.0), Vec(10.0, 0.0)), Face(Vec(10.0, 0.0), Vec(10.0, 10.0)),
     Face(Vec(10.0, 10.0), Vec(0.0, 10.0)), Face(Vec(0.0, 10.0), Vec(0.0, 0.0))]
  }

  /** The faces the constructor builds for the square, clockwise on screen:
      the square geometry of the lemmas below is the one it builds. */
  lemma SquareHasSquareFaces(g: Geometry)
    requires Valid(g) && g.coords == Square()
    ensures g == Geometry(Square(), SquareFaces())
  {
    assert g.faces[0] == Edge(g.coords, 0);
    assert g.faces[1] == Edge(g.coords, 1);
    assert g.faces[2] == Edge(g.coords, 2);
    assert g.faces[3] == Edge(g.coords, 3);
  }

  /** The side test of a face whose direction and offset to `p` are known. */
  lemma SideOfFaceByValues(f: Face, p: Vec, d: Vec, v: Vec, k: real)
    requires Dir(f) == d && Sub(p, f.beg) == v
    requires d.x * v.y - d.y * v.x == k
    ensures OnTheRight(f, p) <==> k > 0.0
  {
  }

  /** The centre of the square is on the right of each of its faces. */
  lemma SquareCentreSide(i: int)
    requires 0 <= i < 4
    ensures OnTheRight(SquareFaces()[i], Vec(5.0, 5.0))
  {
    var f, c := SquareFaces()[i], Vec(5.0, 5.0);
    if i == 0 {
      SideOfFaceByValues(f, c, Vec(10.0, 0.0), Vec(5.0, 5.0), 50.0);
    } else if i == 1 {
      SideOfFaceByValues(f, c, Vec(0.0, 10.0), Vec(-5.0, 5.0), 50.0);
    } else if i == 2 {
      SideOfFaceByValues(f, c, Vec(-10.0, 0.0), Vec(-5.0, -5.0), 50.0);
    } else {
      SideOfFaceByValues(f, c, Vec(0.0, -10.0), Vec(5.0, -5.0), 50.0);
    }
  }

  /** The centre of a 10 by 10 square listed clockwise on screen (y down)
      is inside it. */
  lemma SquareCentreInside()
    ensures IsInside(Geometry(Square(), SquareFaces()), Vec(5.0, 5.0))
  {
    forall i | 0 <= i < 4
      ensures OnTheRight(SquareFaces()[i], Vec(5.0, 5.0))
    {
      SquareCentreSide(i);
    }
  }

  /** A point just left of the square is not inside it: it lies on the
      left of the face running up the square's left side. */
  lemma SquareLeftOutside()
    ensures !IsInside(Geometry(Square(), SquareFaces()), Vec(-1.0, 5.0))
  {
    SideOfFaceByValues(SquareFaces()[3], Vec(-1.0, 5.0), Vec(0.0, -10.0), Vec(-1.0, -5.0), -10.0);
    OneFaceExcludes(Geometry(Square(), SquareFaces()), Vec(-1.0, 5.0), 3);
  }

  /** A point just above the square (smaller y) is not inside it. */
  lemma SquareTopOutside()
    ensures !IsInside(Geometry(Square(), SquareFaces()), Vec(5.0, -1.0))
  {
    SideOfFaceByValues(SquareFaces()[0], Vec(5.0, -1.0), Vec(10.0, 0.0), Vec(5.0, -1.0), -10.0);
    OneFaceExcludes(Geometry(Square(), SquareFaces()), Vec(5.0, -1.0), 0);
  }

  /** Shifting by zero keeps a face where it is. */
  lemma ShiftOutByZero(f: Face, len: real)
    requires HasLength(f, len)
    ensures ShiftOut(f, 0.0, len) == f
  {
  }

  /** Inflating by zero gives back every vertex whose neighbouring faces
      are not parallel. */
  lemma InflateByZero(coords: seq<Vertex>, lens: seq<real>, i: int)
    requires EdgeLengths(coords, lens)
    requires 0 <= i < |coords|
    requires Cross(Dir(Edge(coords, PrevIdx(|coords|, i))), Dir(Edge(coords, i))) != 0.0
    ensures InflatedVertex(coords, 0.0, lens, i) == Some(coords[i].pos)
  {
    var n := |coords|;
    var j := PrevIdx(n, i);
    NextPrevInverse(n, i);
    ShiftOutByZero(Edge(coords, j), lens[j]);
    ShiftOutByZero(Edge(coords, i), lens[i]);
    assert Sub(coords[i].pos, Edge(coords, j).beg) == Dir(Edge(coords, j));
    assert Sub(coords[i].pos, Edge(coords, i).beg) == Zero;
    IntersectUnique(Edge(coords, j), Edge(coords, i), coords[i].pos);
  }

  /** An inflated vertex lies strictly on the right of both of its faces
      exactly when the polygon is shrunk (negative distance): inflating
      outwards moves every vertex off the interior side of its faces. */
  lemma InflatedVertexSide(coords: seq<Vertex>, distance: real, lens: seq<real>, i: int)
    requires EdgeLengths(coords, lens)
    requires 0 <= i < |coords|
    requires InflatedVertex(coords, distance, lens, i).Some?
    ensures var v, j := InflatedVertex(coords, distance, lens, i).value, PrevIdx(|coords|, i);
            && (OnTheRight(Edge(coords, j), v) <==> distance < 0.0)
            && (OnTheRight(Edge(coords, i), v) <==> distance < 0.0)
  {
    var v, j := InflatedVertex(coords, distance, lens, i).value, PrevIdx(|coords|, i);
    OnTheRightMatchesSource(Edge(coords, j), v, lens[j]);
    OnTheRightMatchesSource(Edge(coords, i), v, lens[i]);
  }

  /** Inflating a valid polygon outwards by a positive distance puts every
      computed vertex outside the original polygon. */
  lemma InflatedVertexOutside(g: Geometry, distance: real, lens: seq<real>, i: int)
    requires Valid(g)
    requires EdgeLengths(g.coords, lens)
    requires 0 <= i < |g.coords|
    requires distance > 0.0
    requires InflatedVertex(g.coords, distance, lens, i).Some?
    ensures !IsInside(g, InflatedVertex(g.coords, distance, lens, i).value)
  {
    InflatedVertexSide(g.coords, distance, lens, i);
  }
}
