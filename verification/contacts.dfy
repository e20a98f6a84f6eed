/** Particle contacts of the nozzle solver (src/physics/physics_nozzle.hpp):
    the elastic velocity exchange of two equal-mass particles and the
    overlap correction that precedes it.

    A particle is a Verlet body: its velocity is not stored but is the
    difference `position - lastPosition`. Two particles are in contact
    when their centres are less than 1 apart (the `dist2 < 1` test of
    `solveContact`); the source's comment calls 1 the common radius, while
    the renderer draws them with radius 1/2 (src/renderer/renderer.cpp:51),
    so that 1 is the sum of the two radii. */
module Contacts {
  import opened Vectors

  datatype Particle = Particle(position: Vec, lastPosition: Vec)

  /** `position - last_position`: the displacement over the last step. */
  function Velocity(o: Particle): Vec
  {
    Sub(o.position, o.lastPosition)
  }

  /** The velocity a particle leaves a collision with: its own component
      across the line of centres `n` plus the other particle's component
      along it. */
  function Swapped(own: Vec, other: Vec, n: Vec): Vec
    requires n != Zero
  {
    PerpNonZero(n);
    Add(Proj(own, Perp(n)), Proj(other, n))
  }

  /** The source's formula for the same velocity, with the unit normal
      `n / |n|` and the unit tangent `{n.y, -n.x}` built from the supplied
      norm `len` of `n`. */
  function SwappedUnit(own: Vec, other: Vec, n: Vec, len: real): Vec
    requires n != Zero && IsNorm(len, n)
  {
    NormOfNonZero(n, len);
    var nu := Normalize(n, len);
    var l := Perp(nu);
    Add(Scale(l, Dot(l, own)), Scale(nu, Dot(nu, other)))
  }

  /** The rational form is the source's unit-vector formula. */
  lemma SwappedMatchesSource(own: Vec, other: Vec, n: Vec, len: real)
    requires n != Zero && IsNorm(len, n)
    ensures SwappedUnit(own, other, n, len) == Swapped(own, other, n)
  {
    NormOfNonZero(n, len);
    ProjNormalized(other, n, len);
    NormalizePerp(n, len);
    PerpNonZero(n);
    ProjNormalized(own, Perp(n), len);
  }

  /** The particle keeps its position and takes velocity `v`: only the
      last position is rewritten. */
  function WithVelocity(o: Particle, v: Vec): (r: Particle)
    ensures r.position == o.position
    ensures Velocity(r) == v
  {
    Particle(o.position, Sub(o.position, v))
  }

  /** `exchangeVelocities`. The source's distance guard is commented out,
      so coincident centres (a division by zero) are excluded by the
      caller. */
  function ExchangeVelocities(objs: seq<Particle>, i: int, j: int): (r: seq<Particle>)
    requires 0 <= i < |objs| && 0 <= j < |objs|
    requires objs[i].position != objs[j].position
    ensures |r| == |objs|
    ensures forall k :: 0 <= k < |objs| && k != i && k != j ==> r[k] == objs[k]
    ensures r[i].position == objs[i].position && r[j].position == objs[j].position
  {
    var o1, o2 := objs[i], objs[j];
    var n := Sub(o1.position, o2.position);
    var v1, v2 := Velocity(o1), Velocity(o2);
    objs[i := WithVelocity(o1, Swapped(v1, v2, n))][j := WithVelocity(o2, Swapped(v2, v1, n))]
  }

  // ---------------------------------------------------------------------
  // Properties of the exchange

  /** Along the line of centres the particles trade their velocity
      components; across it each keeps its own. */
  lemma SwappedComponents(own: Vec, other: Vec, n: Vec)
    requires n != Zero
    ensures Dot(Swapped(own, other, n), n) == Dot(other, n)
    ensures Dot(Swapped(own, other, n), Perp(n)) == Dot(own, Perp(n))
  {
    PerpNonZero(n);
    var a, b := Proj(own, Perp(n)), Proj(other, n);
    ProjPerpOrthogonal(own, n);
    DotAdd(a, b, n);
    DotAdd(a, b, Perp(n));
  }

  /** The new velocities of `exchangeVelocities`, component by component. */
  lemma ExchangeComponents(objs: seq<Particle>, i: int, j: int)
    requires 0 <= i < |objs| && 0 <= j < |objs|
    requires objs[i].position != objs[j].position
    ensures var r, n := ExchangeVelocities(objs, i, j), Sub(objs[i].position, objs[j].position);
            && Dot(Velocity(r[i]), n) == Dot(Velocity(objs[j]), n)
            && Dot(Velocity(r[i]), Perp(n)) == Dot(Velocity(objs[i]), Perp(n))
            && Dot(Velocity(r[j]), n) == Dot(Velocity(objs[i]), n)
            && Dot(Velocity(r[j]), Perp(n)) == Dot(Velocity(objs[j]), Perp(n))
  {
    var n := Sub(objs[i].position, objs[j].position);
    SwappedComponents(Velocity(objs[i]), Velocity(objs[j]), n);
    SwappedComponents(Velocity(objs[j]), Velocity(objs[i]), n);
  }

  /** Momentum: the sum of the two velocities is unchanged. */
  lemma SwappedConservesMomentum(v1: Vec, v2: Vec, n: Vec)
    requires n != Zero
    ensures Add(Swapped(v1, v2, n), Swapped(v2, v1, n)) == Add(v1, v2)
  {
    Decompose(v1, n);
    Decompose(v2, n);
  }

  /** Kinetic energy: the sum of the squared speeds is unchanged. */
  lemma SwappedConservesEnergy(v1: Vec, v2: Vec, n: Vec)
    requires n != Zero
    ensures NormSq(Swapped(v1, v2, n)) + NormSq(Swapped(v2, v1, n)) == NormSq(v1) + NormSq(v2)
  {
    var w1, w2 := Swapped(v1, v2, n), Swapped(v2, v1, n);
    SwappedComponents(v1, v2, n);
    SwappedComponents(v2, v1, n);
    NormSqPositive(n);
    Lagrange(w1, n);
    Lagrange(w2, n);
    var a1, b1, a2, b2 := Dot(v1, n), Dot(v1, Perp(n)), Dot(v2, n), Dot(v2, Perp(n));
    calc {
      NormSq(n) * (NormSq(w1) + NormSq(w2));
    == NormSq(w1) * NormSq(n) + NormSq(w2) * NormSq(n);
    == (a2 * a2 + b1 * b1) + (a1 * a1 + b2 * b2);
    == (a1 * a1 + b1 * b1) + (a2 * a2 + b2 * b2);
    == { Lagrange(v1, n); Lagrange(v2, n); }
       NormSq(v1) * NormSq(n) + NormSq(v2) * NormSq(n);
    == NormSq(n) * (NormSq(v1) + NormSq(v2));
    }
    Cancel(NormSq(n), NormSq(w1) + NormSq(w2), NormSq(v1) + NormSq(v2));
  }

  /** `exchangeVelocities` conserves the total velocity and the total
      squared speed of the pair. */
  lemma ExchangeConserves(objs: seq<Particle>, i: int, j: int)
    requires 0 <= i < |objs| && 0 <= j < |objs|
    requires objs[i].position != objs[j].position
    ensures var r := ExchangeVelocities(objs, i, j);
            Add(Velocity(r[i]), Velocity(r[j])) == Add(Velocity(objs[i]), Velocity(objs[j]))
    ensures var r := ExchangeVelocities(objs, i, j);
            NormSq(Velocity(r[i])) + NormSq(Velocity(r[j]))
            == NormSq(Velocity(objs[i])) + NormSq(Velocity(objs[j]))
  {
    var n := Sub(objs[i].position, objs[j].position);
    SwappedConservesMomentum(Velocity(objs[i]), Velocity(objs[j]), n);
    SwappedConservesEnergy(Velocity(objs[i]), Velocity(objs[j]), n);
  }

  /** Exchanging twice restores the original pair: the exchange is its
      own inverse. */
  lemma ExchangeTwiceRestores(objs: seq<Particle>, i: int, j: int)
    requires 0 <= i < |objs| && 0 <= j < |objs|
    requires objs[i].position != objs[j].position
    ensures ExchangeVelocities(ExchangeVelocities(objs, i, j), i, j) == objs
  {
    var once := ExchangeVelocities(objs, i, j);
    var twice := ExchangeVelocities(once, i, j);
    var n := Sub(objs[i].position, objs[j].position);
    ExchangeComponents(objs, i, j);
    ExchangeComponents(once, i, j);
    BasisUnique(Velocity(twice[i]), Velocity(objs[i]), n);
    BasisUnique(Velocity(twice[j]), Velocity(objs[j]), n);
    assert twice[i] == objs[i];
    assert twice[j] == objs[j];
  }

  // ---------------------------------------------------------------------
  // solveContact

  /** `eps` of `solveContact`: the smallest squared centre distance it
      resolves; closer pairs are left alone. */
  const Eps: real := 0.0001

  /** The guard of `solveContact`: the squared centre distance is below 1
      (the particles overlap) and above `Eps`. */
  predicate Overlapping(a: Particle, b: Particle)
  {
    var dist2 := NormSq(Sub(a.position, b.position));
    dist2 < 1.0 && dist2 > Eps
  }

  /** Both the position and the last position move by `c`. */
  function Shift(o: Particle, c: Vec): (r: Particle)
    ensures Velocity(r) == Velocity(o)
    ensures r.position == Add(o.position, c)
  {
    Particle(Add(o.position, c), Add(o.lastPosition, c))
  }

  /** `col_vec`: the unit vector from the second centre to the first,
      scaled by half the overlap `1 - dist` (`response_coef` is 1). */
  function Correction(o: Vec, dist: real): Vec
    requires IsNorm(dist, o) && dist > 0.0
  {
    Scale(Normalize(o, dist), 1.0 * 0.5 * (1.0 - dist))
  }

  /** The first particle moves by `col`, the second by `-col`. */
  function Separate(objs: seq<Particle>, i: int, j: int, col: Vec): seq<Particle>
    requires 0 <= i < |objs| && 0 <= j < |objs|
  {
    objs[i := Shift(objs[i], col)][j := Shift(objs[j], Scale(col, -1.0))]
  }

  /** Moving the centres apart by the correction on each side leaves them
      at the unit vector along their old separation. */
  lemma CorrectionReachesUnit(o: Vec, dist: real)
    requires IsNorm(dist, o) && dist > 0.0
    ensures Add(o, Scale(Correction(o, dist), 2.0)) == Normalize(o, dist)
  {
    var k := 1.0 / dist;
    var h := 1.0 * 0.5 * (1.0 - dist);
    assert k * dist == 1.0;
    HalfOverlap(o, k, dist, h);
    assert Correction(o, dist) == Scale(Scale(o, k), h);
  }

  /** `CorrectionReachesUnit` without the square root: with `k = 1 / dist`
      and `h` half the overlap, `o + 2 * (o * k * h) == o * k`. */
  lemma HalfOverlap(o: Vec, k: real, dist: real, h: real)
    requires k * dist == 1.0
    requires h == 1.0 * 0.5 * (1.0 - dist)
    ensures Add(o, Scale(Scale(Scale(o, k), h), 2.0)) == Scale(o, k)
  {
    HalfOverlapComponent(o.x, k, dist, h);
    HalfOverlapComponent(o.y, k, dist, h);
  }

  /** One coordinate of `HalfOverlap`. */
  lemma HalfOverlapComponent(c: real, k: real, dist: real, h: real)
    requires k * dist == 1.0
    requires h == 1.0 * 0.5 * (1.0 - dist)
    ensures c + ((c * k) * h) * 2.0 == c * k
  {
    calc {
      c + ((c * k) * h) * 2.0;
    == c + (c * k) * (2.0 * h);
    == { assert 2.0 * h == 1.0 - dist; }
      c + (c * k) * (1.0 - dist);
    == c + c * k - c * (k * dist);
    == c * k;
    }
  }

  /** `solveContact`, with the square root of the squared centre distance
      supplied as `dist`. */
  function SolveContact(objs: seq<Particle>, i: int, j: int, dist: real): (r: seq<Particle>)
    requires 0 <= i < |objs| && 0 <= j < |objs|
    requires IsNorm(dist, Sub(objs[i].position, objs[j].position))
    ensures |r| == |objs|
    ensures !Overlapping(objs[i], objs[j]) ==> r == objs
    ensures forall k :: 0 <= k < |objs| && k != i && k != j ==> r[k] == objs[k]
  {
    if Overlapping(objs[i], objs[j]) then
      var o := Sub(objs[i].position, objs[j].position);
      NormSqPositive(o);
      NormOfNonZero(o, dist);
      var col := Correction(o, dist);
      var moved := Separate(objs, i, j, col);
      SeparatedAtUnit(objs, i, j, dist);
      ExchangeVelocities(moved, i, j)
    else
      objs
  }

  /** After the correction the centres are exactly 1 apart, on the line
      they were on. */
  lemma SeparatedAtUnit(objs: seq<Particle>, i: int, j: int, dist: real)
    requires 0 <= i < |objs| && 0 <= j < |objs|
    requires IsNorm(dist, Sub(objs[i].position, objs[j].position)) && dist > 0.0
    requires i != j
    ensures var o := Sub(objs[i].position, objs[j].position);
            var moved := Separate(objs, i, j, Correction(o, dist));
            && Sub(moved[i].position, moved[j].position) == Normalize(o, dist)
            && moved[i].position != moved[j].position
  {
    var o := Sub(objs[i].position, objs[j].position);
    var col := Correction(o, dist);
    CorrectionReachesUnit(o, dist);
    var moved := Separate(objs, i, j, col);
    assert moved[i].position == Add(objs[i].position, col);
    assert moved[j].position == Add(objs[j].position, Scale(col, -1.0));
    MovedApart(objs[i].position, objs[j].position, col);
    UnitNonZero(Normalize(o, dist));
  }

  lemma MovedApart(p1: Vec, p2: Vec, c: Vec)
    ensures Sub(Add(p1, c), Add(p2, Scale(c, -1.0))) == Add(Sub(p1, p2), Scale(c, 2.0))
  {
  }

  // ---------------------------------------------------------------------
  // Properties of solveContact

  /** The two steps of a contact that fires: the correction, then the
      exchange. */
  lemma ContactSteps(objs: seq<Particle>, i: int, j: int, dist: real)
    requires 0 <= i < |objs| && 0 <= j < |objs|
    requires IsNorm(dist, Sub(objs[i].position, objs[j].position))
    requires Overlapping(objs[i], objs[j])
    ensures i != j && dist > 0.0
    ensures var o := Sub(objs[i].position, objs[j].position);
            var moved := Separate(objs, i, j, Correction(o, dist));
            && moved[i].position != moved[j].position
            && SolveContact(objs, i, j, dist) == ExchangeVelocities(moved, i, j)
  {
    var o := Sub(objs[i].position, objs[j].position);
    NormSqPositive(o);
    NormOfNonZero(o, dist);
    SeparatedAtUnit(objs, i, j, dist);
  }

  /** A particle is never in contact with itself: `solveContact(i, i)`
      changes nothing. */
  lemma SolveContactSameIndex(objs: seq<Particle>, i: int, dist: real)
    requires 0 <= i < |objs|
    requires IsNorm(dist, Sub(objs[i].position, objs[i].position))
    ensures SolveContact(objs, i, i, dist) == objs
  {
    assert Sub(objs[i].position, objs[i].position) == Zero;
    assert NormSq(Zero) == 0.0;
  }

  /** The correction moves `position` and `last_position` together, so no
      particle's velocity changes before the exchange. */
  lemma SeparateKeepsVelocities(objs: seq<Particle>, i: int, j: int, col: Vec)
    requires 0 <= i < |objs| && 0 <= j < |objs|
    ensures var moved := Separate(objs, i, j, col);
            && |moved| == |objs|
            && forall k :: 0 <= k < |objs| ==> Velocity(moved[k]) == Velocity(objs[k])
  {
  }

  /** When the contact fires the centres end exactly 1 apart (the sum of
      the two radii), on the line they were on. */
  lemma SolveContactSeparates(objs: seq<Particle>, i: int, j: int, dist: real)
    requires 0 <= i < |objs| && 0 <= j < |objs|
    requires IsNorm(dist, Sub(objs[i].position, objs[j].position))
    requires Overlapping(objs[i], objs[j])
    ensures var r := SolveContact(objs, i, j, dist);
            && NormSq(Sub(r[i].position, r[j].position)) == 1.0
            && Scale(Sub(r[i].position, r[j].position), dist) == Sub(objs[i].position, objs[j].position)
  {
    ContactSteps(objs, i, j, dist);
    SeparatedAtUnit(objs, i, j, dist);
  }

  /** The midpoint of the pair does not move. */
  lemma SolveContactKeepsCentre(objs: seq<Particle>, i: int, j: int, dist: real)
    requires 0 <= i < |objs| && 0 <= j < |objs|
    requires IsNorm(dist, Sub(objs[i].position, objs[j].position))
    ensures var r := SolveContact(objs, i, j, dist);
            Add(r[i].position, r[j].position) == Add(objs[i].position, objs[j].position)
  {
    if Overlapping(objs[i], objs[j]) {
      ContactSteps(objs, i, j, dist);
    }
  }

  /** A contact conserves the pair's total velocity and total squared
      speed. */
  lemma SolveContactConserves(objs: seq<Particle>, i: int, j: int, dist: real)
    requires 0 <= i < |objs| && 0 <= j < |objs|
    requires IsNorm(dist, Sub(objs[i].position, objs[j].position))
    ensures var r := SolveContact(objs, i, j, dist);
            Add(Velocity(r[i]), Velocity(r[j])) == Add(Velocity(objs[i]), Velocity(objs[j]))
    ensures var r := SolveContact(objs, i, j, dist);
            NormSq(Velocity(r[i])) + NormSq(Velocity(r[j]))
            == NormSq(Velocity(objs[i])) + NormSq(Velocity(objs[j]))
  {
    if Overlapping(objs[i], objs[j]) {
      ContactSteps(objs, i, j, dist);
      var o := Sub(objs[i].position, objs[j].position);
      var col := Correction(o, dist);
      SeparateKeepsVelocities(objs, i, j, col);
      ExchangeConserves(Separate(objs, i, j, col), i, j);
    }
  }

  /** Two particles at rest stay at rest through the exchange. */
  lemma ExchangeAtRest(objs: seq<Particle>, i: int, j: int)
    requires 0 <= i < |objs| && 0 <= j < |objs|
    requires objs[i].position != objs[j].position
    requires Velocity(objs[i]) == Zero && Velocity(objs[j]) == Zero
    ensures ExchangeVelocities(objs, i, j) == objs
  {
    var r := ExchangeVelocities(objs, i, j);
    var n := Sub(objs[i].position, objs[j].position);
    ExchangeComponents(objs, i, j);
    BasisUnique(Velocity(r[i]), Zero, n);
    BasisUnique(Velocity(r[j]), Zero, n);
    assert r[i] == objs[i];
    assert r[j] == objs[j];
  }

  /** A contact between two resting particles only pushes them apart:
      both are still at rest afterwards. */
  lemma SolveContactAtRest(objs: seq<Particle>, i: int, j: int, dist: real)
    requires 0 <= i < |objs| && 0 <= j < |objs|
    requires IsNorm(dist, Sub(objs[i].position, objs[j].position))
    requires Velocity(objs[i]) == Zero && Velocity(objs[j]) == Zero
    ensures var r := SolveContact(objs, i, j, dist);
            Velocity(r[i]) == Zero && Velocity(r[j]) == Zero
  {
    if Overlapping(objs[i], objs[j]) {
      ContactSteps(objs, i, j, dist);
      var o := Sub(objs[i].position, objs[j].position);
      var moved := Separate(objs, i, j, Correction(o, dist));
      SeparateKeepsVelocities(objs, i, j, Correction(o, dist));
      ExchangeAtRest(moved, i, j);
    }
  }
}
