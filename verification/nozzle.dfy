/** The per-particle boundary handling of `updateObjects_multi` in
    src/physics/physics_nozzle.hpp: which x-band of the convergent-divergent
    nozzle a particle is in, which walls of that band apply to it,
    and the closed left end.

    The nozzle, with y pointing down:

           x1      x4
     _______        _______          y = 0
            \      /
             \____/                  y = y1 (throat top)
              x2  x3
              ____                   y = y2 (throat bottom)
             /    \
     _______/      \________         y = world height

    `reflect(obj, plane)` lives in code this model does not include; it is
    a parameter here, and the model records the planes it is called with. */
module Nozzle {
  import opened Vectors
  import opened Contacts

  /** `NozzleGeom`: the x positions of the four corners of the walls and
      the y positions of the throat's top and bottom walls (y points down,
      so the top wall has the smaller y). */
  datatype NozzleGeom = NozzleGeom(x1: real, x2: real, x3: real, x4: real, y1: real, y2: real)

  /** The x-bands of the if/else-if chain, in the order it tests them:
      converging section, diverging section, the straight pipe outside
      the nozzle, and the throat. `NoBand` is the fall-through no x
      reaches. */
  datatype Band = Converging | Diverging | Straight | Throat | NoBand

  /** The band chosen by the if/else-if chain for abscissa `x`; the last
      test, `x <= x3`, cannot fail once the others have. */
  function SelectBand(g: NozzleGeom, x: real): (b: Band)
    ensures b != NoBand
  {
    if x > g.x1 && x < g.x2 then Converging
    else if x > g.x3 && x < g.x4 then Diverging
    else if x <= g.x1 || x >= g.x4 then Straight
    else if x <= g.x3 then Throat
    else NoBand
  }

  predicate Ordered(g: NozzleGeom)
  {
    g.x1 < g.x2 < g.x3 < g.x4
  }

  /** For an ordered geometry each band is exactly one x-interval: the
      open converging and diverging intervals, the closed throat between
      them and everything outside `(x1, x4)`. */
  lemma BandIntervals(g: NozzleGeom, x: real)
    requires Ordered(g)
    ensures SelectBand(g, x) == Converging <==> g.x1 < x < g.x2
    ensures SelectBand(g, x) == Diverging <==> g.x3 < x < g.x4
    ensures SelectBand(g, x) == Straight <==> x <= g.x1 || x >= g.x4
    ensures SelectBand(g, x) == Throat <==> g.x2 <= x <= g.x3
  {
  }

  // ---------------------------------------------------------------------
  // Walls

  /** The wall lines of the two sloped sections, as the tests write them. */
  function ConvergingTop(g: NozzleGeom, x: real): real
  {
    (x - g.x1) * 0.5
  }

  function ConvergingBottom(g: NozzleGeom, x: real): real
  {
    g.y2 + (g.x2 - x) * 0.5
  }

  function DivergingTop(g: NozzleGeom, x: real): real
    requires g.x3 != g.x4
  {
    (x - g.x4) / (g.x3 - g.x4) * g.y1
  }

  function DivergingBottom(g: NozzleGeom, x: real): real
    requires g.x3 != g.x4
  {
    g.y2 * (x - g.x4) / (g.x3 - g.x4) + (g.y2 + g.y1) * (x - g.x3) / (g.x4 - g.x3)
  }

  /** The planes the walls reflect about. */
  function ConvergingTopPlane(g: NozzleGeom): Vec { Vec(g.x2 - g.x1, g.y1) }
  function ConvergingBottomPlane(g: NozzleGeom): Vec { Vec(g.x2 - g.x1, -g.y1) }
  function DivergingTopPlane(g: NozzleGeom): Vec { Vec(g.x4 - g.x3, -g.y1) }
  function DivergingBottomPlane(g: NozzleGeom): Vec { Vec(g.x4 - g.x3, g.y1) }
  const Horizontal := Vec(1.0, 0.0)
  /** The plane of the closed left end. */
  const LeftPlane := Vec(0.0, 1.0)

  /** The planes a particle in band `b` can be reflected about, besides
      the left end. */
  function BandPlanes(g: NozzleGeom, b: Band): seq<Vec>
  {
    match b
    case Converging => [ConvergingTopPlane(g), ConvergingBottomPlane(g)]
    case Diverging => [DivergingTopPlane(g), DivergingBottomPlane(g)]
    case Straight => [Horizontal]
    case Throat => [Horizontal]
    case NoBand => []
  }

  /** The plane of the band's first wall test (the top wall); for the
      straight and throat bands, whose single test covers both walls, the
      horizontal. */
  function FirstWall(g: NozzleGeom, b: Band): Vec
    requires b != NoBand
  {
    BandPlanes(g, b)[0]
  }

  /** The plane of the band's second wall test (the bottom wall). */
  function SecondWall(g: NozzleGeom, b: Band): Vec
    requires b != NoBand
  {
    BandPlanes(g, b)[|BandPlanes(g, b)| - 1]
  }

  // ---------------------------------------------------------------------
  // One particle's boundary handling

  /** A particle together with the planes it has been reflected about so
      far, in order. */
  datatype Bounce = Bounce(obj: Particle, planes: seq<Vec>)

  /** The particle reached from `start` by reflecting about `planes` in
      order. */
  function Replay(start: Particle, planes: seq<Vec>, reflect: (Particle, Vec) -> Particle): Particle
    decreases |planes|
  {
    if |planes| == 0 then start
    else reflect(Replay(start, planes[..|planes| - 1], reflect), planes[|planes| - 1])
  }

  /** `b` is what reflecting `start` about `b.planes` gives. */
  predicate FromStart(start: Particle, b: Bounce, reflect: (Particle, Vec) -> Particle)
  {
    b.obj == Replay(start, b.planes, reflect)
  }

  /** One more call of `reflect`. */
  function Bounced(b: Bounce, plane: Vec, reflect: (Particle, Vec) -> Particle): (r: Bounce)
    ensures r.planes == b.planes + [plane]
    ensures forall start :: FromStart(start, b, reflect) ==> FromStart(start, r, reflect)
  {
    var r := Bounce(reflect(b.obj, plane), b.planes + [plane]);
    assert r.planes[..|r.planes| - 1] == b.planes;
    r
  }

  /** The band tests. `y` is the particle's y before any reflection: the
      source binds only `x` by reference, `y` is a copy. `x` is re-read
      from the particle after the first wall of a sloped section. */
  function BandWalls(g: NozzleGeom, worldHeight: real, y: real, b: Bounce,
                     reflect: (Particle, Vec) -> Particle): (r: Bounce)
    ensures forall start :: FromStart(start, b, reflect) ==> FromStart(start, r, reflect)
    ensures |b.planes| <= |r.planes| <= |b.planes| + 2
    ensures r.planes[..|b.planes|] == b.planes
    ensures forall k :: |b.planes| <= k < |r.planes| ==>
              r.planes[k] in BandPlanes(g, SelectBand(g, b.obj.position.x))
    // the first test fires: the first new plane is the band's first wall
    ensures var x := b.obj.position.x;
            y < TopWall(g, x) ==>
              && |r.planes| > |b.planes|
              && r.planes[|b.planes|] == FirstWall(g, SelectBand(g, x))
    // between the walls: no reflection
    ensures var x := b.obj.position.x;
            TopWall(g, x) <= y <= BottomWall(g, worldHeight, x) ==> r == b
    // only the second test fires: exactly the band's second wall
    ensures var x := b.obj.position.x;
            TopWall(g, x) <= y && y > BottomWall(g, worldHeight, x) ==>
              r.planes == b.planes + [SecondWall(g, SelectBand(g, x))]
    // after the first wall of a sloped band fired, the second test takes the
    // x of the reflected particle and the y from before the reflection
    ensures var x := b.obj.position.x;
            SelectBand(g, x) == Converging && y < ConvergingTop(g, x) ==>
              var x' := reflect(b.obj, ConvergingTopPlane(g)).position.x;
              (|r.planes| == |b.planes| + 2 <==> y > ConvergingBottom(g, x'))
    ensures var x := b.obj.position.x;
            SelectBand(g, x) == Diverging && y < DivergingTop(g, x) ==>
              var x' := reflect(b.obj, DivergingTopPlane(g)).position.x;
              (|r.planes| == |b.planes| + 2 <==> y > DivergingBottom(g, x'))
    // the straight and throat bands have a single test
    ensures var band := SelectBand(g, b.obj.position.x);
            band == Straight || band == Throat ==> |r.planes| <= |b.planes| + 1
    // two reflections come in the order the tests are written
    ensures var x := b.obj.position.x;
            |r.planes| == |b.planes| + 2 ==>
              r.planes == b.planes + [FirstWall(g, SelectBand(g, x)), SecondWall(g, SelectBand(g, x))]
  {
    var x := b.obj.position.x;
    match SelectBand(g, x)
    case Converging =>
      var b1 := if y < ConvergingTop(g, x) then Bounced(b, ConvergingTopPlane(g), reflect) else b;
      var x' := b1.obj.position.x;
      if y > ConvergingBottom(g, x') then Bounced(b1, ConvergingBottomPlane(g), reflect) else b1
    case Diverging =>
      var b1 := if y < DivergingTop(g, x) then Bounced(b, DivergingTopPlane(g), reflect) else b;
      var x' := b1.obj.position.x;
      if y > DivergingBottom(g, x') then Bounced(b1, DivergingBottomPlane(g), reflect) else b1
    case Straight =>
      if y > worldHeight || y < 0.0 then Bounced(b, Horizontal, reflect) else b
    case Throat =>
      if y > g.y2 || y < g.y1 then Bounced(b, Horizontal, reflect) else b
    case NoBand =>
      b
  }

  /** The boundary handling of one particle after its Verlet step: the band
      walls, then the closed left end, judged by the x the band walls
      leave. The result is the particle reflected about the recorded
      planes in order, each a wall of the starting band or the left end. */
  function Boundaries(g: NozzleGeom, worldHeight: real, obj: Particle,
                      reflect: (Particle, Vec) -> Particle): (r: Bounce)
    ensures r.obj == Replay(obj, r.planes, reflect)
    ensures |r.planes| <= 3
    ensures forall k :: 0 <= k < |r.planes| ==>
              r.planes[k] in BandPlanes(g, SelectBand(g, obj.position.x)) + [LeftPlane]
    // the left end is tested after the band walls, whatever they did
    ensures var b := BandWalls(g, worldHeight, obj.position.y, Bounce(obj, []), reflect);
            r.planes == b.planes + (if b.obj.position.x < 0.0 then [LeftPlane] else [])
  {
    var start := Bounce(obj, []);
    assert FromStart(obj, start, reflect);
    var b := BandWalls(g, worldHeight, obj.position.y, start, reflect);
    assert FromStart(obj, b, reflect);
    if b.obj.position.x < 0.0 then Bounced(b, LeftPlane, reflect) else b
  }

  // ---------------------------------------------------------------------
  // The nozzle profile

  /** The top wall of the channel over abscissa `x` (the smaller y): the
      edge `y = 0` outside the nozzle, the sloped top walls of the two
      sections and the throat's top wall `y = y1`. */
  function TopWall(g: NozzleGeom, x: real): real
  {
    match SelectBand(g, x)
    case Converging => ConvergingTop(g, x)
    case Diverging => DivergingTop(g, x)
    case Straight => 0.0
    case Throat => g.y1
    case NoBand => assert false; 0.0
  }

  /** The bottom wall of the channel (the larger y): the world's bottom
      edge outside the nozzle, the sloped bottom walls of the two sections
      and the throat's bottom wall `y = y2`. */
  function BottomWall(g: NozzleGeom, worldHeight: real, x: real): real
  {
    match SelectBand(g, x)
    case Converging => ConvergingBottom(g, x)
    case Diverging => DivergingBottom(g, x)
    case Straight => worldHeight
    case Throat => g.y2
    case NoBand => assert false; 0.0
  }

  predicate InProfile(g: NozzleGeom, worldHeight: real, p: Vec)
  {
    TopWall(g, p.x) <= p.y <= BottomWall(g, worldHeight, p.x)
  }

  /** A particle between the walls of its band meets only the closed left
      end, and that exactly when it is left of `x = 0`. */
  lemma InProfileOnlyLeftEnd(g: NozzleGeom, worldHeight: real, obj: Particle,
                             reflect: (Particle, Vec) -> Particle)
    requires InProfile(g, worldHeight, obj.position)
    ensures Boundaries(g, worldHeight, obj, reflect).planes
         == if obj.position.x < 0.0 then [LeftPlane] else []
  {
  }

  /** A particle beyond a wall of its band is reflected, first about a wall
      of that band. */
  lemma OutOfProfileReflected(g: NozzleGeom, worldHeight: real, obj: Particle,
                              reflect: (Particle, Vec) -> Particle)
    requires !InProfile(g, worldHeight, obj.position)
    ensures var r := Boundaries(g, worldHeight, obj, reflect);
            |r.planes| >= 1 && r.planes[0] in BandPlanes(g, SelectBand(g, obj.position.x))
  {
    var start := Bounce(obj, []);
    var b := BandWalls(g, worldHeight, obj.position.y, start, reflect);
    assert |b.planes| >= 1 by {
      var x := obj.position.x;
      var y := obj.position.y;
      match SelectBand(g, x)
      case Converging =>
        if y >= ConvergingTop(g, x) {
          assert y > ConvergingBottom(g, x);
        }
      case Diverging =>
        if y >= DivergingTop(g, x) {
          assert y > DivergingBottom(g, x);
        }
      case Straight =>
      case Throat =>
    }
    assert b.planes[0] in BandPlanes(g, SelectBand(g, obj.position.x));
  }

  /** Hence a particle is left alone exactly when it is inside the profile
      and right of the closed end. */
  lemma UntouchedIff(g: NozzleGeom, worldHeight: real, obj: Particle,
                     reflect: (Particle, Vec) -> Particle)
    ensures Boundaries(g, worldHeight, obj, reflect).planes == []
        <==> InProfile(g, worldHeight, obj.position) && obj.position.x >= 0.0
  {
    if InProfile(g, worldHeight, obj.position) {
      InProfileOnlyLeftEnd(g, worldHeight, obj, reflect);
    } else {
      OutOfProfileReflected(g, worldHeight, obj, reflect);
    }
  }

  /** The diverging walls are parallel to their reflection planes: one step
      along the plane direction moves along the wall line. */
  lemma DivergingPlanesFollowWalls(g: NozzleGeom, x: real)
    requires g.x3 != g.x4
    ensures DivergingTop(g, x + DivergingTopPlane(g).x)
         == DivergingTop(g, x) + DivergingTopPlane(g).y
    ensures DivergingBottom(g, x + DivergingBottomPlane(g).x)
         == DivergingBottom(g, x) + DivergingBottomPlane(g).y
  {
  }

  /** The converging walls have the fixed slope 1/2, so their reflection
      planes are parallel to them exactly when `x2 - x1 == 2 * y1`. */
  lemma ConvergingPlanesFollowWalls(g: NozzleGeom, x: real)
    ensures ConvergingTop(g, x + ConvergingTopPlane(g).x)
         == ConvergingTop(g, x) + ConvergingTopPlane(g).y
        <==> g.x2 - g.x1 == 2.0 * g.y1
    ensures ConvergingBottom(g, x + ConvergingBottomPlane(g).x)
         == ConvergingBottom(g, x) + ConvergingBottomPlane(g).y
        <==> g.x2 - g.x1 == 2.0 * g.y1
  {
  }

  /** The walls of neighbouring bands meet at the band ends. */
  predicate WallsMeet(g: NozzleGeom, worldHeight: real)
    requires g.x3 != g.x4
  {
    && ConvergingTop(g, g.x1) == 0.0
    && ConvergingTop(g, g.x2) == g.y1
    && ConvergingBottom(g, g.x1) == worldHeight
    && ConvergingBottom(g, g.x2) == g.y2
    && DivergingTop(g, g.x3) == g.y1
    && DivergingTop(g, g.x4) == 0.0
    && DivergingBottom(g, g.x3) == g.y2
    && DivergingBottom(g, g.x4) == worldHeight
  }

  /** The profile is closed exactly when the converging section is twice as
      long as the throat's top wall is deep (`y1`), and the throat's top
      and bottom walls add up to the world height. */
  lemma WallsMeetIff(g: NozzleGeom, worldHeight: real)
    requires g.x3 != g.x4
    ensures WallsMeet(g, worldHeight)
        <==> g.x2 - g.x1 == 2.0 * g.y1 && g.y1 + g.y2 == worldHeight
  {
  }

  /** The nozzle of the shipped scene. */
  const SceneGeometry := NozzleGeom(1700.0, 2000.0, 2200.0, 2500.0, 150.0, 200.0)
  const SceneHeight := 350.0

  lemma SceneWallsMeet()
    ensures Ordered(SceneGeometry)
    ensures WallsMeet(SceneGeometry, SceneHeight)
  {
    WallsMeetIff(SceneGeometry, SceneHeight);
  }
}
