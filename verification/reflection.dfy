/** `reflectVec` of src/physics/physics_nozzle.hpp: mirroring a velocity
    about the line of a wall direction. The source builds the unit tangent
    `l = d / |d|` and the unit normal `n = {l.y, -l.x}` and returns
    `l (v . l) - n (v . n)`; `ReflectVec` is the same vector written with
    projections on `d` and on its normal, which need no square root. */
module Reflection {
  import opened Vectors

  /** The component of `v` along `d` is kept, the component along the
      normal of `d` is negated. */
  function ReflectVec(v: Vec, d: Vec): (r: Vec)
    requires d != Zero
    ensures Dot(r, d) == Dot(v, d)
    ensures Dot(r, Perp(d)) == -Dot(v, Perp(d))
  {
    PerpNonZero(d);
    var along := Proj(v, d);
    var across := Proj(v, Perp(d));
    ProjPerpOrthogonal(v, d);
    DotSub(along, across, d);
    DotSub(along, across, Perp(d));
    Sub(along, across)
  }

  /** The source's formula, with the norm `len` of `d` supplied. */
  function ReflectVecUnit(v: Vec, d: Vec, len: real): Vec
    requires d != Zero && IsNorm(len, d)
  {
    NormOfNonZero(d, len);
    var l := Normalize(d, len);
    var n := Perp(l);
    var prjN := Scale(n, Dot(v, n));
    var prjL := Scale(l, Dot(v, l));
    Sub(prjL, prjN)
  }

  /** The rational form is the source's unit-vector formula. */
  lemma ReflectVecMatchesSource(v: Vec, d: Vec, len: real)
    requires d != Zero && IsNorm(len, d)
    ensures ReflectVecUnit(v, d, len) == ReflectVec(v, d)
  {
    NormOfNonZero(d, len);
    ProjNormalized(v, d, len);
    NormalizePerp(d, len);
    PerpNonZero(d);
    ProjNormalized(v, Perp(d), len);
  }

  /** Reflecting twice about the same direction gives the vector back. */
  lemma ReflectInvolution(v: Vec, d: Vec)
    requires d != Zero
    ensures ReflectVec(ReflectVec(v, d), d) == v
  {
    BasisUnique(ReflectVec(ReflectVec(v, d), d), v, d);
  }

  /** Reflection keeps the squared length: a bounce off a wall keeps the
      speed. */
  lemma ReflectPreservesNormSq(v: Vec, d: Vec)
    requires d != Zero
    ensures NormSq(ReflectVec(v, d)) == NormSq(v)
  {
    var r := ReflectVec(v, d);
    NormSqPositive(d);
    Lagrange(r, d);
    Lagrange(v, d);
    calc {
      NormSq(d) * NormSq(r);
    == Dot(r, d) * Dot(r, d) + Dot(r, Perp(d)) * Dot(r, Perp(d));
    == Dot(v, d) * Dot(v, d) + (-Dot(v, Perp(d))) * (-Dot(v, Perp(d)));
    == Dot(v, d) * Dot(v, d) + Dot(v, Perp(d)) * Dot(v, Perp(d));
    == NormSq(d) * NormSq(v);
    }
    Cancel(NormSq(d), NormSq(r), NormSq(v));
  }

  /** Only the line of the direction matters: any non-zero multiple, of
      either sign, reflects the same way. */
  lemma ReflectScaleInvariant(v: Vec, d: Vec, k: real)
    requires d != Zero && k != 0.0
    ensures Scale(d, k) != Zero
    ensures ReflectVec(v, Scale(d, k)) == ReflectVec(v, d)
  {
    ProjScaleInvariant(v, d, k);
    PerpNonZero(d);
    PerpScale(d, k);
    ProjScaleInvariant(v, Perp(d), k);
  }

  /** The two components determine the reflection. */
  lemma ReflectByComponents(v: Vec, d: Vec, w: Vec)
    requires d != Zero
    requires Dot(w, d) == Dot(v, d)
    requires Dot(w, Perp(d)) == -Dot(v, Perp(d))
    ensures ReflectVec(v, d) == w
  {
    BasisUnique(ReflectVec(v, d), w, d);
  }

  /** Reflecting about the horizontal `{1, 0}` (the floor, ceiling and
      throat walls) flips the vertical component. */
  lemma ReflectHorizontal(v: Vec)
    ensures ReflectVec(v, Vec(1.0, 0.0)) == Vec(v.x, -v.y)
  {
    ReflectByComponents(v, Vec(1.0, 0.0), Vec(v.x, -v.y));
  }

  /** Reflecting about the vertical `{0, 1}` (the closed left side) flips
      the horizontal component. */
  lemma ReflectVertical(v: Vec)
    ensures ReflectVec(v, Vec(0.0, 1.0)) == Vec(-v.x, v.y)
  {
    ReflectByComponents(v, Vec(0.0, 1.0), Vec(-v.x, v.y));
  }
}
