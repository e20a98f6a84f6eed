# Verlet nozzle flow: polygon geometry and collision algebra in Dafny

This project models the pure-algebra core of a multithreaded Verlet particle
simulation of gas flowing through a convergent-divergent nozzle. It has two
parts:

- **Polygon geometry** (`src/physics/geometry.hpp`): the 2D point operators
  (`TPoint`), a directed edge with its unit tangent and left normal (`TFace`),
  its side and "scope" tests, the line intersection and the outward shift, and
  the closed polygon (`TGeometry`) with cyclic indexing, faces, the convex
  containment tests and inflation.
- **Nozzle solver** (`src/physics/physics_nozzle.hpp`): mirroring a velocity
  about a wall direction (`reflectVec`), the equal-mass elastic exchange of two
  particles' normal velocity components (`exchangeVelocities`), the overlap
  correction of two touching particles (`solveContact`), and the per-particle
  boundary handling of `updateObjects_multi`. That last part picks the x-band
  of the nozzle, tests the band's walls and then the closed left end. The
  walls are named by where they are drawn on screen: with y pointing down,
  the top wall of a band is the one with the smaller y (`y1` at the throat)
  and the bottom wall the one with the larger y (`y2` at the throat).

Floats are exact `real`s. Screen coordinates have y pointing down, so the
interior of a polygon listed clockwise on screen lies on the right of every
face. Square roots are never computed. A norm enters as a parameter `len`
with `len >= 0 && len * len == |v|^2` (`Vectors.IsNorm`). Five of the
source's unit-vector computations also have a square-root-free form, with a
lemma proving the source's formula equals it:

- `reflectVec` and the velocity swap of `exchangeVelocities` project on
  the direction itself, dividing by its squared length `|d|^2`;
- `intersect` divides by the cross product of the two face directions
  instead of that of the unit tangents;
- the side test `isPointOnTheRight` and the scope test
  `isPointWithinTheScope` divide by nothing: the unit tangent is the
  direction times the positive factor `1 / len`, which changes no sign and
  turns the scope bound `len` into `|d|^2`.

`shiftOut` (`beg + normal * distance`) and the overlap correction of
`solveContact` (`(o2_o1 / dist) * delta`) have no such form; they use the
supplied norm directly.
A particle is the pair `(position, lastPosition)`; its velocity is the
difference of the two. The object array is a `seq<Particle>`.

Files and modules:

| file | module | contents |
|---|---|---|
| wrappers.dfy | Wrappers | `Option` |
| vectors.dfy | Vectors | `TPoint` arithmetic, normal, cross component, norm, projection |
| faces.dfy | Faces | `TFace` |
| geometry.dfy | Geometry | `TGeometry` |
| reflection.dfy | Reflection | `reflectVec` |
| contacts.dfy | Contacts | particles, `exchangeVelocities`, `solveContact` |
| nozzle.dfy | Nozzle | band selection and wall tests of `updateObjects_multi` |

### Where the model follows the code rather than the documented behaviour

- The scope test `isPointWithinTheScope` is documented as true when the
  point projects onto the segment. The code returns true when the projection
  falls *before the start or after the end*. `Faces.WithinScope` follows the
  code.
- Containment is documented as a robust test for non-convex polygons. The
  code's `isInside(p)` is the convex test "strictly on the right of every
  face". That is what `Geometry.IsInside` models.
- The contact is documented as firing when `eps < d < 1` for the centre
  distance `d`. The code compares the *squared* distance with `eps`
  (`dist2 > 0.0001`). `Contacts.Overlapping` follows the code.
- In `updateObjects_multi` the line `auto& x = obj.position.x, y = obj.position.y;`
  binds only `x` by reference; `y` is a copy taken before any reflection.
  `Nozzle.BandWalls` therefore tests the second wall of a sloped section with
  the re-read `x` but the original `y`. The closed-end test uses the
  `x` the band walls leave.
- The band chain ends in `else if (x <= g.x3)`. That test can never fail
  once the earlier ones have failed, whatever the geometry; `Nozzle.SelectBand`
  proves it never returns `NoBand`.

## Model

| member | source | states |
|---|---|---|
| Vectors.Sub | src/physics/geometry.hpp:10-12 | adding `b` back to `a - b` gives `a`; the difference is zero exactly when the points coincide |
| Vectors.PerpFacts | src/physics/geometry.hpp:50 | the left normal `{t.y, -t.x}` is orthogonal to `t` and as long as `t` |
| Vectors.Cross | src/physics/geometry.hpp:26-29 | `crossComponent(a, b)` is the scalar product of the normal of `a` with `b`, and minus that of the normal of `b` with `a` |
| Vectors.Normalize | src/physics/geometry.hpp:31-39 | dividing by the norm gives a unit vector that, scaled by the norm, is the original vector |
| Vectors.Proj | src/physics/physics_nozzle.hpp:35-39 | the projection on `d` keeps the component along `d` and has none along the normal of `d` |
| Vectors.ProjNormalized | src/physics/physics_nozzle.hpp:32-39 | the source's `l * (v . l)` with `l = d / norm(d)` is the projection of `v` on `d` |
| Vectors.NormalizePerp | src/physics/physics_nozzle.hpp:32-33 | the unit normal `{l.y, -l.x}` of the unit tangent is the normalised normal of `d` |
| Vectors.Decompose | src/physics/physics_nozzle.hpp:67-70 | a velocity is the sum of its tangential part and its part along the line of centres |
| Vectors.ProjScaleInvariant | src/physics/physics_nozzle.hpp:31-32 | projecting on any non-zero multiple of `d` is projecting on `d` |
| Faces.Tangent | src/physics/geometry.hpp:47-49 | the stored tangent has unit length and points from `beg` to `end` |
| Faces.Normal | src/physics/geometry.hpp:50 | the stored normal has unit length and is orthogonal to the tangent |
| Faces.OnTheRightByNormal | src/physics/geometry.hpp:66-69 | a point is on the right exactly when the normal's product with `p - beg` is negative |
| Faces.OnTheRightMatchesSource | src/physics/geometry.hpp:66-69 | the side test written with the unit tangent agrees with the rational form, and holds exactly when the signed offset from the face's line is negative |
| Faces.WithinScope | src/physics/geometry.hpp:71-75 | false exactly when the projection of `p - beg` on the face direction lies between 0 and the squared length of the face, i.e. true means outside the segment's band |
| Faces.WithinScopeMatchesSource | src/physics/geometry.hpp:71-75 | the scope test written with the unit tangent agrees with the rational form; false exactly when `tangent . (p - beg)` lies between 0 and the face's length |
| Faces.Intersect | src/physics/geometry.hpp:53-58 | a point exists exactly when the two directions are not parallel, and it lies on both faces' lines |
| Faces.IntersectMatchesSource | src/physics/geometry.hpp:53-58 | the source's unit-tangent formula gives the same point, and fails in the same cases |
| Faces.IntersectUnique | src/physics/geometry.hpp:53-58 | any point on both of two non-parallel lines is the computed intersection |
| Faces.ShiftOut | src/physics/geometry.hpp:60-62 | the shifted face has the same direction; its start is at signed offset `distance` along the normal and does not move along the tangent |
| Faces.ShiftOutKeepsFrame | src/physics/geometry.hpp:60-62 | the shifted face has the same length, tangent and normal |
| Faces.ShiftedLineOffset | src/physics/geometry.hpp:60-62 | every point of the shifted line is at signed offset `distance` from the original line |
| Faces.ShiftOutNotOnTheRight | src/physics/geometry.hpp:60-69 | both endpoints of the shifted face are on the right of the original exactly when `distance < 0` |
| Geometry.NextIdx | src/physics/geometry.hpp:92-94 | the next index stays in `[0, n)` and is `(i + 1) mod n` |
| Geometry.PrevIdx | src/physics/geometry.hpp:96-98 | the previous index stays in `[0, n)` and is `(i - 1) mod n` |
| Geometry.NextPrevInverse | src/physics/geometry.hpp:92-98 | next and previous undo each other; next of `n - 1` is 0 and previous of 0 is `n - 1` |
| Geometry.MakeGeometry | src/physics/geometry.hpp:83-90 | the constructor keeps the vertices and builds one face per vertex, face `i` running from vertex `i` to the next vertex |
| Geometry.FacesCloseTheRing | src/physics/geometry.hpp:83-94 | every face ends where the next begins; the last face ends at the first vertex |
| Geometry.IsWall | src/physics/geometry.hpp:115-117 | the wall tag of vertex `i`, which is where face `i` starts |
| Geometry.GetFace | src/physics/geometry.hpp:120-124 | the vector that carries vertex `i` to the next vertex; for a constructed geometry, the direction of face `i` |
| Geometry.IsInsideFace | src/physics/geometry.hpp:100-103 | false exactly when `p` is not strictly on the right of the face and projects onto the segment |
| Geometry.AllOnTheRight | src/physics/geometry.hpp:105-112 | the early-exit loop returns true exactly when `p` is strictly on the right of every face |
| Geometry.IsInside | src/physics/geometry.hpp:105-112 | inside exactly when strictly on the right of every face |
| Geometry.InsideImpliesInsideEveryFace | src/physics/geometry.hpp:100-112 | a point inside the polygon passes the per-face test for every face |
| Geometry.OneFaceExcludes | src/physics/geometry.hpp:105-112 | one face that `p` is not strictly right of puts `p` outside |
| Geometry.OnFaceLineNotInside | src/physics/geometry.hpp:66-69 | a point on the line of any face is not inside, because the test is strict |
| Geometry.VertexNotInside | src/physics/geometry.hpp:105-112 | no vertex of a constructed polygon is inside it |
| Geometry.SquareHasSquareFaces | src/physics/geometry.hpp:83-90 | the constructor's faces for a 10 by 10 square, the last one wrapping to the first vertex |
| Geometry.SquareCentreInside | src/physics/geometry.hpp:105-112 | the centre of a square listed clockwise on screen is inside it |
| Geometry.SquareLeftOutside | src/physics/geometry.hpp:105-112 | a point left of the square is outside |
| Geometry.SquareTopOutside | src/physics/geometry.hpp:105-112 | a point above the square is outside |
| Geometry.ShiftOutByZero | src/physics/geometry.hpp:60-62 | shifting by zero leaves a face where it is |
| Geometry.InflatedVertex | src/physics/geometry.hpp:141-145 | inflated vertex `i` exists exactly when edges `prev(i)` and `i` are not parallel, and lies at signed offset `distance` from both edges' lines |
| Geometry.GetCoordsInflated | src/physics/geometry.hpp:127-148 | one point per vertex; point `i` is the intersection of the shifted edges `prev(i)` and `i` |
| Geometry.InflateByZero | src/physics/geometry.hpp:127-148 | inflating by 0 gives back each vertex whose neighbouring edges are not parallel |
| Geometry.InflatedVertexSide | src/physics/geometry.hpp:127-148 | an inflated vertex is on the right of both its edges exactly when the distance is negative |
| Geometry.InflatedVertexOutside | src/physics/geometry.hpp:127-148 | inflating by a positive distance puts every computed vertex outside the original polygon |
| Reflection.ReflectVec | src/physics/physics_nozzle.hpp:29-43 | the component along `d` is kept and the component along its normal is negated |
| Reflection.ReflectVecMatchesSource | src/physics/physics_nozzle.hpp:29-43 | the source's formula with unit tangent and unit normal is the rational reflection |
| Reflection.ReflectInvolution | src/physics/physics_nozzle.hpp:29-43 | reflecting twice about the same direction gives the vector back |
| Reflection.ReflectPreservesNormSq | src/physics/physics_nozzle.hpp:35-41 | reflection keeps the squared length |
| Reflection.ReflectScaleInvariant | src/physics/physics_nozzle.hpp:31-32 | any non-zero multiple of the direction, of either sign, gives the same reflection |
| Reflection.ReflectByComponents | src/physics/physics_nozzle.hpp:35-41 | a vector with the kept tangential and negated normal component is the reflection |
| Reflection.ReflectHorizontal | src/physics/physics_nozzle.hpp:133-137 | reflecting about `{1, 0}` gives `(v.x, -v.y)` |
| Reflection.ReflectVertical | src/physics/physics_nozzle.hpp:141-143 | reflecting about `{0, 1}` gives `(-v.x, v.y)` |
| Contacts.WithVelocity | src/physics/physics_nozzle.hpp:75-76 | rewriting `last_position` as `position - v` keeps the position and sets the velocity to `v` |
| Contacts.ExchangeVelocities | src/physics/physics_nozzle.hpp:53-77 | only the two indexed particles change, and neither moves |
| Contacts.SwappedMatchesSource | src/physics/physics_nozzle.hpp:61-73 | the source's unit-vector formula for the new velocity is the rational one |
| Contacts.SwappedComponents | src/physics/physics_nozzle.hpp:67-73 | the new velocity has the other particle's normal component and its own tangential component |
| Contacts.ExchangeComponents | src/physics/physics_nozzle.hpp:64-76 | after the exchange the particles have traded their components along the line of centres and kept their tangential ones |
| Contacts.SwappedConservesMomentum | src/physics/physics_nozzle.hpp:72-73 | the sum of the two new velocities is the sum of the old ones |
| Contacts.SwappedConservesEnergy | src/physics/physics_nozzle.hpp:72-73 | the sum of the two squared speeds is unchanged |
| Contacts.ExchangeConserves | src/physics/physics_nozzle.hpp:64-76 | the exchange conserves the pair's total velocity and total squared speed |
| Contacts.ExchangeTwiceRestores | src/physics/physics_nozzle.hpp:53-77 | exchanging twice restores the original particles |
| Contacts.ExchangeAtRest | src/physics/physics_nozzle.hpp:64-76 | two particles at rest are left unchanged |
| Contacts.Shift | src/physics/physics_nozzle.hpp:94-97 | moving position and last position by the same vector keeps the velocity |
| Contacts.CorrectionReachesUnit | src/physics/physics_nozzle.hpp:90-95 | two corrections added to the separation give the unit vector along it |
| Contacts.SolveContact | src/physics/physics_nozzle.hpp:81-101 | nothing changes unless `eps < dist^2 < 1`; only the two indexed particles can change |
| Contacts.SeparatedAtUnit | src/physics/physics_nozzle.hpp:90-95 | after the correction the separation is the unit vector along the old one, so the centres are distinct |
| Contacts.ContactSteps | src/physics/physics_nozzle.hpp:89-99 | a firing contact has distinct indices and a positive distance, and is the correction followed by the exchange |
| Contacts.SolveContactSameIndex | src/physics/physics_nozzle.hpp:87-89 | a contact of a particle with itself changes nothing |
| Contacts.SeparateKeepsVelocities | src/physics/physics_nozzle.hpp:94-97 | the correction changes no particle's velocity |
| Contacts.SolveContactSeparates | src/physics/physics_nozzle.hpp:90-99 | a firing contact leaves the centres exactly 1 apart, on the line they were on |
| Contacts.SolveContactKeepsCentre | src/physics/physics_nozzle.hpp:94-99 | the sum of the two positions does not change |
| Contacts.SolveContactConserves | src/physics/physics_nozzle.hpp:81-101 | a contact conserves the pair's total velocity and total squared speed |
| Contacts.SolveContactAtRest | src/physics/physics_nozzle.hpp:81-101 | two particles at rest are still at rest after a contact |
| Nozzle.SelectBand | src/physics/physics_nozzle.hpp:118-138 | the band chain always picks a band: its last test never fails |
| Nozzle.BandIntervals | src/physics/physics_nozzle.hpp:118-135 | for `x1 < x2 < x3 < x4` each band is one x-interval: `(x1, x2)`, `(x3, x4)`, outside `(x1, x4)`, and `[x2, x3]` |
| Nozzle.BandWalls | src/physics/physics_nozzle.hpp:115-138 | at most two reflections, each about a wall of the particle's band, and the result is the particle reflected about them; above the top wall the first reflection is about the band's first-tested plane; between the walls nothing happens; below the bottom wall only, exactly the band's second-tested plane; once a sloped band's first wall fired, the second reflection happens exactly when the copied `y` is beyond the bottom wall at the `x` of the reflected particle; the straight and throat bands reflect at most once; two reflections come in the order the tests are written |
| Nozzle.Boundaries | src/physics/physics_nozzle.hpp:114-143 | the particle ends reflected about the recorded planes in order, at most three, each a wall of its starting band or the left end; the left end is added after the band walls exactly when the `x` they leave is negative, whatever they did |
| Nozzle.InProfileOnlyLeftEnd | src/physics/physics_nozzle.hpp:118-143 | a particle between its band's walls is reflected only by the left end, exactly when `x < 0` |
| Nozzle.OutOfProfileReflected | src/physics/physics_nozzle.hpp:118-138 | a particle beyond a wall of its band is reflected, first about a wall of that band |
| Nozzle.UntouchedIff | src/physics/physics_nozzle.hpp:118-143 | a particle is left alone exactly when it is between its band's walls and `x >= 0` |
| Nozzle.DivergingPlanesFollowWalls | src/physics/physics_nozzle.hpp:125-131 | the diverging walls run parallel to their reflection planes |
| Nozzle.ConvergingPlanesFollowWalls | src/physics/physics_nozzle.hpp:118-124 | the converging walls run parallel to their reflection planes exactly when `x2 - x1 == 2 * y1` |
| Nozzle.WallsMeetIff | src/physics/physics_nozzle.hpp:118-131 | the walls of neighbouring bands meet exactly when `x2 - x1 == 2 * y1` and `y1 + y2` is the world height |
| Nozzle.SceneWallsMeet | src/main.cpp:22-23 | the nozzle of the shipped scene is ordered and its walls meet |

## Left out

- Float rounding, overflow and NaN: the model computes over exact reals.
- Vectors.IsNorm: the square root is a library call; every member that needs a norm takes it as a parameter related to the vector by `IsNorm`.
- Faces.Intersect: where the source divides by a zero cross product (parallel or degenerate faces) and gets an infinite or NaN point, the model returns `None`.
- Geometry.IsWall: the `isWallFollows` flag is kept on polygon vertices only. Points computed by vector arithmetic carry the default flag in the source, and that flag is not modelled.
- Geometry.GetCoordsInflated: the edge lengths are parameters, not computed, and must be positive (`EdgeLengths`), so a ring with two equal consecutive vertices is excluded; the source accepts one and normalises a zero-length edge into NaN points. The result is `Option` per vertex for the parallel-edge case above. The default argument `distance = 0.5` is not modelled.
- Contacts.ExchangeVelocities: requires distinct centres, because the source's guard is commented out and it divides by the centre distance.
- Contacts.SolveContact: the square root of the squared distance is a parameter.
- Nozzle.Boundaries: `reflect(obj, plane)` is a parameter. It calls `getVelocity`, `setPosition` and `addVelocity` of a physics object whose header is not part of this model, so the model only records the planes reflected about. The gravity and Verlet `update` step before the wall tests are not part of this model either.
- Concurrency: the thread-pool fan-out of `updateObjects_multi` is left out; each particle's boundary handling is modelled on its own.
- Rendering, video encoding, window handling and the random particle spawning of the application are not part of this model.
- Containment by winding angle, closest-face lookup and point-to-face distances: the geometry code has none of them.
