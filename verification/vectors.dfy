/** Two-dimensional vector algebra of the polygon geometry and of the solver
    (the `TPoint` operators of src/physics/geometry.hpp and the `Vec2`
    arithmetic used by src/physics/physics_nozzle.hpp), over exact reals.

    Screen convention: x points right, y points DOWN.

    Square roots are not computed: a norm enters the model as a value `len`
    related to the vector by `IsNorm`. The projection `Proj` divides by
    `|d|^2` instead of normalising `d`, which gives `reflectVec` and the
    velocity swap of `exchangeVelocities` a square-root-free form. Two
    formulas keep the unit vector and use the supplied norm directly:
    `shiftOut` (`beg + normal * distance`) and the overlap correction of
    `solveContact` (`(o2_o1 / dist) * delta`). */
module Vectors {

  datatype Vec = Vec(x: real, y: real)

  const Zero := Vec(0.0, 0.0)

  function Add(a: Vec, b: Vec): Vec
  {
    Vec(a.x + b.x, a.y + b.y)
  }

  function Sub(a: Vec, b: Vec): (r: Vec)
    ensures Add(r, b) == a
    ensures r == Zero <==> a == b
  {
    Vec(a.x - b.x, a.y - b.y)
  }

  /** `TPoint * float`: scaling by a factor. */
  function Scale(a: Vec, k: real): Vec
  {
    Vec(a.x * k, a.y * k)
  }

  /** `TPoint * TPoint`: the scalar product. */
  function Dot(a: Vec, b: Vec): real
  {
    a.x * b.x + a.y * b.y
  }

  function NormSq(a: Vec): real
  {
    a.x * a.x + a.y * a.y
  }

  /** The "left normal" direction `{t.y, -t.x}` the source attaches to a
      tangent `t`; with y pointing down it points to the left of `t`. */
  function Perp(a: Vec): Vec
  {
    Vec(a.y, -a.x)
  }

  /** The normal is orthogonal to the vector and as long. */
  lemma PerpFacts(a: Vec)
    ensures Dot(Perp(a), a) == 0.0
    ensures Dot(a, Perp(a)) == 0.0
    ensures NormSq(Perp(a)) == NormSq(a)
  {
  }

  /** `crossComponent`: the z component of the cross product, in the sign
      convention of the source (`y * other.x - x * other.y`). */
  function Cross(a: Vec, b: Vec): (r: real)
    ensures r == Dot(Perp(a), b)
    ensures r == -Dot(Perp(b), a)
  {
    a.y * b.x - a.x * b.y
  }

  /** `len` is the Euclidean norm of `v`: the value `sqrt(x*x + y*y)`
      computed by `norm()`. The square root itself is a library call and
      enters the model only through this relation. */
  predicate IsNorm(len: real, v: Vec)
  {
    len >= 0.0 && len * len == NormSq(v)
  }

  /** `normalize()`: divide by the norm. */
  function Normalize(v: Vec, len: real): (u: Vec)
    requires IsNorm(len, v) && len > 0.0
    ensures NormSq(u) == 1.0
    ensures Scale(u, len) == v
  {
    var k := 1.0 / len;
    ScaleNormSq(v, k);
    assert k * len == 1.0;
    assert k * k * (len * len) == (k * len) * (k * len);
    Scale(v, k)
  }

  /** Projection of `v` on the direction of `d`: the source's `l * (l . v)`
      for the unit vector `l = d / |d|`, written without the square root. */
  function Proj(v: Vec, d: Vec): (r: Vec)
    requires d != Zero
    ensures Dot(r, d) == Dot(v, d)
    ensures Dot(r, Perp(d)) == 0.0
  {
    NormSqPositive(d);
    var k := Dot(v, d) / NormSq(d);
    DotScale(d, d, k);
    DotScale(d, Perp(d), k);
    Scale(d, k)
  }

  // ---------------------------------------------------------------------
  // Algebraic facts

  /** A vector has a positive squared norm exactly when it is not the zero
      vector. */
  lemma NormSqPositive(a: Vec)
    ensures NormSq(a) >= 0.0
    ensures a != Zero ==> NormSq(a) > 0.0
  {
    if a.x != 0.0 {
      calc {
        NormSq(a);
      == a.x * a.x + a.y * a.y;
      >= a.x * a.x;
      > 0.0;
      }
    } else if a.y != 0.0 {
      calc {
        NormSq(a);
      == a.x * a.x + a.y * a.y;
      >= a.y * a.y;
      > 0.0;
      }
    } else {
      calc {
        NormSq(a);
      == 0.0 * 0.0 + 0.0 * 0.0;
      == 0.0;
      }
    }
  }

  /** A norm is positive exactly when the vector is not zero. */
  lemma NormOfNonZero(v: Vec, len: real)
    requires IsNorm(len, v)
    ensures len > 0.0 <==> v != Zero
  {
    NormSqPositive(v);
    if len > 0.0 {
      calc {
        NormSq(v);
      == len * len;
      > 0.0;
      }
    } else {
      calc {
        NormSq(v);
      == len * len;
      == 0.0;
      }
    }
  }

  lemma ScaleNormSq(v: Vec, k: real)
    ensures NormSq(Scale(v, k)) == k * k * NormSq(v)
  {
  }

  lemma DotScale(a: Vec, b: Vec, k: real)
    ensures Dot(Scale(a, k), b) == k * Dot(a, b)
  {
  }

  lemma DotAdd(a: Vec, b: Vec, c: Vec)
    ensures Dot(Add(a, b), c) == Dot(a, c) + Dot(b, c)
  {
  }

  lemma DotSub(a: Vec, b: Vec, c: Vec)
    ensures Dot(Sub(a, b), c) == Dot(a, c) - Dot(b, c)
  {
  }

  lemma DotPerpPerp(a: Vec, b: Vec)
    ensures Dot(Perp(a), Perp(b)) == Dot(a, b)
  {
  }

  lemma PerpScale(a: Vec, k: real)
    ensures Perp(Scale(a, k)) == Scale(Perp(a), k)
  {
  }

  /** A vector is determined by its components along `d` and along the
      normal of `d`, as long as `d` is not zero. */
  lemma BasisUnique(u: Vec, w: Vec, d: Vec)
    requires d != Zero
    requires Dot(u, d) == Dot(w, d)
    requires Dot(u, Perp(d)) == Dot(w, Perp(d))
    ensures u == w
  {
    var e := Sub(u, w);
    DotSub(u, w, d);
    DotSub(u, w, Perp(d));
    assert e.x * d.x + e.y * d.y == 0.0;
    assert e.x * d.y - e.y * d.x == 0.0;
    // (e.x, e.y) solves a linear system with determinant -|d|^2 != 0
    NormSqPositive(d);
    assert e.x * (d.x * d.x + d.y * d.y)
        == d.x * (e.x * d.x + e.y * d.y) + d.y * (e.x * d.y - e.y * d.x);
    assert e.y * (d.x * d.x + d.y * d.y)
        == d.y * (e.x * d.x + e.y * d.y) - d.x * (e.x * d.y - e.y * d.x);
    assert e.x * NormSq(d) == 0.0;
    assert e.y * NormSq(d) == 0.0;
    assert e == Zero;
  }

  /** Every vector is the sum of its projections on `d` and on the normal of `d`. */
  lemma Decompose(v: Vec, d: Vec)
    requires d != Zero
    ensures Add(Proj(v, d), Proj(v, Perp(d))) == v
  {
    var s := Add(Proj(v, d), Proj(v, Perp(d)));
    DotAdd(Proj(v, d), Proj(v, Perp(d)), d);
    DotAdd(Proj(v, d), Proj(v, Perp(d)), Perp(d));
    assert Dot(Proj(v, Perp(d)), d) == 0.0 by {
      assert Perp(Perp(d)) == Scale(d, -1.0);
      DotScale(d, Proj(v, Perp(d)), -1.0);
    }
    BasisUnique(s, v, d);
  }

  /** Lagrange's identity in the plane: the squared norm of `v`, weighted
      by that of `d`, is the sum of the squared components along `d` and
      along its normal. */
  lemma Lagrange(v: Vec, d: Vec)
    ensures NormSq(v) * NormSq(d)
         == Dot(v, d) * Dot(v, d) + Dot(v, Perp(d)) * Dot(v, Perp(d))
  {
  }

  /** The normal of a non-zero vector is not zero. */
  lemma PerpNonZero(d: Vec)
    requires d != Zero
    ensures Perp(d) != Zero
  {
  }

  /** The projection on the normal of `d` has no component along `d`. */
  lemma ProjPerpOrthogonal(v: Vec, d: Vec)
    requires d != Zero
    ensures Dot(Proj(v, Perp(d)), d) == 0.0
  {
    var pd := Perp(d);
    var p := Proj(v, pd);
    calc {
      Dot(p, d);
    == { assert d == Scale(Perp(pd), -1.0); }
      Dot(p, Scale(Perp(pd), -1.0));
    == { DotScale(Perp(pd), p, -1.0); }
      -1.0 * Dot(Perp(pd), p);
    == -1.0 * Dot(p, Perp(pd));
    == 0.0;
    }
  }

  /** A factor that is not zero cancels. */
  lemma Cancel(k: real, a: real, b: real)
    requires k != 0.0
    requires k * a == k * b
    ensures a == b
  {
    calc {
      a;
    == (k * a) / k;
    == (k * b) / k;
    == b;
    }
  }

  /** Projecting on `d` or on any non-zero multiple of `d` is the same:
      only the direction matters. */
  lemma ProjScaleInvariant(v: Vec, d: Vec, k: real)
    requires d != Zero && k != 0.0
    ensures Scale(d, k) != Zero
    ensures Proj(v, Scale(d, k)) == Proj(v, d)
  {
    NormSqPositive(d);
    ScaleNormSq(d, k);
    assert NormSq(Scale(d, k)) > 0.0 by {
      calc {
        NormSq(Scale(d, k));
      == (k * k) * NormSq(d);
      > 0.0;
      }
    }
    var dk := Scale(d, k);
    var pk := Proj(v, dk);
    DotScale(d, pk, k);
    DotScale(d, v, k);
    Cancel(k, Dot(pk, d), Dot(v, d));
    PerpScale(d, k);
    DotScale(Perp(d), pk, k);
    Cancel(k, Dot(pk, Perp(d)), 0.0);
    BasisUnique(pk, Proj(v, d), d);
  }

  /** A unit vector is not zero. */
  lemma UnitNonZero(u: Vec)
    requires NormSq(u) == 1.0
    ensures u != Zero
  {
    assert NormSq(Zero) == 0.0;
  }

  /** For a unit vector `u` the projection is the source's `u * (u . v)`. */
  lemma ProjUnit(v: Vec, u: Vec)
    requires NormSq(u) == 1.0
    ensures u != Zero
    ensures Proj(v, u) == Scale(u, Dot(v, u))
  {
    UnitNonZero(u);
  }

  /** Projecting on the source's unit vector `d / |d|` is projecting on `d`. */
  lemma ProjNormalized(v: Vec, d: Vec, len: real)
    requires IsNorm(len, d) && len > 0.0
    ensures var u := Normalize(d, len);
            Scale(u, Dot(v, u)) == Proj(v, d)
  {
    var u := Normalize(d, len);
    ProjUnit(v, u);
    ProjScaleInvariant(v, u, len);
  }

  /** Normalising commutes with taking the normal. */
  lemma NormalizePerp(d: Vec, len: real)
    requires IsNorm(len, d) && len > 0.0
    ensures IsNorm(len, Perp(d))
    ensures Normalize(Perp(d), len) == Perp(Normalize(d, len))
  {
    PerpScale(d, 1.0 / len);
  }
}
