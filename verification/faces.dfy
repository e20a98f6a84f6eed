/** One directed polygon edge, `TFace` of src/physics/geometry.hpp.

    The source stores the unit tangent `normalize(end - beg)` and the left
    normal `{tangent.y, -tangent.x}`. Both need a square root, so here the
    face keeps only its endpoints, `Tangent` and `Normal` are derived from a
    supplied norm `len` of the direction, and the predicates and the line
    intersection are stated in the equivalent rational form (the positive
    factor `1 / len` never changes a sign and cancels in the intersection).
    The bridge lemmas `*MatchesSource` prove the two forms agree. */
module Faces {
  import opened Vectors
  import opened Wrappers

  datatype Face = Face(beg: Vec, end: Vec)

  /** `end - beg`: the tangent before normalisation. */
  function Dir(f: Face): Vec
  {
    Sub(f.end, f.beg)
  }

  /** `len` is the norm of the face's direction and the face is not
      degenerate, so that the constructor's `normalize` is defined. */
  predicate HasLength(f: Face, len: real)
  {
    IsNorm(len, Dir(f)) && len > 0.0
  }

  /** The unit `tangent` the constructor stores. */
  function Tangent(f: Face, len: real): (t: Vec)
    requires HasLength(f, len)
    ensures NormSq(t) == 1.0
    ensures Scale(t, len) == Dir(f)
  {
    Normalize(Dir(f), len)
  }

  /** The unit "left" `normal` the constructor stores. With y pointing down
      it lies to the left of the tangent, i.e. on the outer side of an edge
      of a polygon whose interior lies to the right of every face. */
  function Normal(f: Face, len: real): (n: Vec)
    requires HasLength(f, len)
    ensures NormSq(n) == 1.0
    ensures Dot(n, Tangent(f, len)) == 0.0
  {
    Perp(Tangent(f, len))
  }

  /** Signed distance of `p` from the line of `f`, positive on the side the
      normal points to. */
  function SignedOffset(f: Face, len: real, p: Vec): real
    requires HasLength(f, len)
  {
    Dot(Normal(f, len), Sub(p, f.beg))
  }

  /** `isPointOnTheRight`: strict sign test of the cross product of the
      direction with `p - beg`. */
  function OnTheRight(f: Face, p: Vec): bool
  {
    var v := Sub(p, f.beg);
    var d := Dir(f);
    d.x * v.y - d.y * v.x > 0.0
  }

  /** On the right means on the side the normal `Perp(Dir(f))` points away
      from. */
  lemma OnTheRightByNormal(f: Face, p: Vec)
    ensures OnTheRight(f, p) <==> Dot(Perp(Dir(f)), Sub(p, f.beg)) < 0.0
  {
  }

  /** `isPointWithinTheScope`: true when the projection of `p` on the face
      falls before `beg` or after `end`; the name notwithstanding, true
      means OUTSIDE the band the segment sweeps along its normal. */
  function WithinScope(f: Face, p: Vec): (r: bool)
    ensures !r <==> 0.0 <= Dot(Dir(f), Sub(p, f.beg)) <= NormSq(Dir(f))
  {
    DotSub(p, f.end, Dir(f));
    DotSub(p, f.beg, Dir(f));
    assert Dot(Dir(f), Sub(p, f.end)) == Dot(Dir(f), Sub(p, f.beg)) - NormSq(Dir(f)) by {
      DotSub(Sub(p, f.beg), Dir(f), Dir(f));
      assert Sub(p, f.end) == Sub(Sub(p, f.beg), Dir(f));
    }
    Dot(Dir(f), Sub(p, f.beg)) < 0.0 || Dot(Dir(f), Sub(p, f.end)) > 0.0
  }

  /** `intersect`: the point where the line of `f` meets the line of `o`.
      The source divides by the cross product of the two tangents; when it
      is zero (parallel or degenerate faces) the result is not a finite
      point, modelled as `None`. */
  function Intersect(f: Face, o: Face): (r: Option<Vec>)
    ensures r.Some? <==> Cross(Dir(f), Dir(o)) != 0.0
    ensures r.Some? ==> Cross(Dir(f), Sub(r.value, f.beg)) == 0.0
    ensures r.Some? ==> Cross(Dir(o), Sub(r.value, o.beg)) == 0.0
  {
    var den := Cross(Dir(f), Dir(o));
    if den == 0.0 then None
    else
      var t := Cross(Sub(o.beg, f.beg), Dir(o)) / den;
      var q := Add(f.beg, Scale(Dir(f), t));
      OnLineOfIntersect(f, o, t);
      Some(q)
  }

  lemma OnLineOfIntersect(f: Face, o: Face, t: real)
    requires Cross(Dir(f), Dir(o)) != 0.0
    requires t == Cross(Sub(o.beg, f.beg), Dir(o)) / Cross(Dir(f), Dir(o))
    ensures Cross(Dir(f), Sub(Add(f.beg, Scale(Dir(f), t)), f.beg)) == 0.0
    ensures Cross(Dir(o), Sub(Add(f.beg, Scale(Dir(f), t)), o.beg)) == 0.0
  {
    var d, e := Dir(f), Dir(o);
    var q := Add(f.beg, Scale(d, t));
    assert Sub(q, f.beg) == Scale(d, t);
    assert Sub(q, o.beg) == Add(Sub(f.beg, o.beg), Scale(d, t));
    calc {
      Cross(e, Sub(q, o.beg));
    == Cross(e, Sub(f.beg, o.beg)) + t * Cross(e, d);
    == Cross(Sub(o.beg, f.beg), e) - t * Cross(d, e);
    == 0.0;
    }
  }

  /** `shiftOut`: the face translated by `distance` along its normal. */
  function ShiftOut(f: Face, distance: real, len: real): (r: Face)
    requires HasLength(f, len)
    ensures Dir(r) == Dir(f)
    ensures SignedOffset(f, len, r.beg) == distance
    ensures Dot(Tangent(f, len), Sub(r.beg, f.beg)) == 0.0
  {
    var n := Normal(f, len);
    var m := Scale(n, distance);
    assert Sub(Add(f.beg, m), f.beg) == m;
    DotScale(n, n, distance);
    assert Dot(n, m) == distance;
    DotScale(n, Tangent(f, len), distance);
    assert Dot(Tangent(f, len), m) == 0.0;
    Face(Add(f.beg, m), Add(f.end, m))
  }

  // ---------------------------------------------------------------------
  // The rational forms agree with the source's unit-vector formulas

  lemma NormalIsScaledPerp(f: Face, len: real)
    requires HasLength(f, len)
    ensures Tangent(f, len) == Scale(Dir(f), 1.0 / len)
    ensures Normal(f, len) == Scale(Perp(Dir(f)), 1.0 / len)
  {
    PerpScale(Dir(f), 1.0 / len);
  }

  lemma PositiveFactorKeepsSign(k: real, c: real)
    requires k > 0.0
    ensures k * c > 0.0 <==> c > 0.0
    ensures k * c < 0.0 <==> c < 0.0
    ensures k * c == 0.0 <==> c == 0.0
  {
  }

  /** `isPointOnTheRight` as the source writes it, with the unit tangent,
      agrees with the rational form; and "on the right" means a negative
      signed offset, i.e. `normal . (p - beg) < 0`. */
  lemma OnTheRightMatchesSource(f: Face, p: Vec, len: real)
    requires HasLength(f, len)
    ensures var t, v := Tangent(f, len), Sub(p, f.beg);
            OnTheRight(f, p) <==> t.x * v.y - t.y * v.x > 0.0
    ensures OnTheRight(f, p) <==> SignedOffset(f, len, p) < 0.0
  {
    var t, v, d, k := Tangent(f, len), Sub(p, f.beg), Dir(f), 1.0 / len;
    NormalIsScaledPerp(f, len);
    calc {
      t.x * v.y - t.y * v.x;
    == (d.x * k) * v.y - (d.y * k) * v.x;
    == k * (d.x * v.y - d.y * v.x);
    }
    DotScale(Perp(d), v, k);
    PositiveFactorKeepsSign(k, d.x * v.y - d.y * v.x);
    PositiveFactorKeepsSign(k, Dot(Perp(d), v));
  }

  /** `isPointWithinTheScope` as the source writes it agrees with the
      rational form; it is false exactly when the projection
      `tangent . (p - beg)` lies in `[0, |end - beg|]`. */
  lemma WithinScopeMatchesSource(f: Face, p: Vec, len: real)
    requires HasLength(f, len)
    ensures var t := Tangent(f, len);
            WithinScope(f, p) <==> Dot(t, Sub(p, f.beg)) < 0.0 || Dot(t, Sub(p, f.end)) > 0.0
    ensures !WithinScope(f, p) <==> 0.0 <= Dot(Tangent(f, len), Sub(p, f.beg)) <= len
  {
    var t, d, k := Tangent(f, len), Dir(f), 1.0 / len;
    NormalIsScaledPerp(f, len);
    DotScale(d, Sub(p, f.beg), k);
    DotScale(d, Sub(p, f.end), k);
    assert Dot(t, Sub(p, f.beg)) == k * Dot(d, Sub(p, f.beg));
    assert Dot(t, Sub(p, f.end)) == k * Dot(d, Sub(p, f.end));
    PositiveFactorKeepsSign(k, Dot(d, Sub(p, f.beg)));
    PositiveFactorKeepsSign(k, Dot(d, Sub(p, f.end)));
    var c := Dot(d, Sub(p, f.beg));
    calc {
      k * c <= len;
    <==> k * c <= k * (len * len);
    <==> c <= len * len;
    <==> c <= NormSq(d);
    }
  }

  /** `intersect` exactly as the source writes it, with the unit tangents:
      `beg + tangent * (num / den)` with `num = (other.beg - beg) x
      other.tangent` and `den = tangent x other.tangent`. */
  function IntersectUnit(f: Face, o: Face, lf: real, lo: real): Option<Vec>
    requires HasLength(f, lf) && HasLength(o, lo)
  {
    var tf, to := Tangent(f, lf), Tangent(o, lo);
    var den := Cross(tf, to);
    if den == 0.0 then None
    else Some(Add(f.beg, Scale(tf, Cross(Sub(o.beg, f.beg), to) / den)))
  }

  /** The source's unit-tangent intersection and the rational one agree:
      both fail together, and otherwise give the same point. */
  lemma IntersectMatchesSource(f: Face, o: Face, lf: real, lo: real)
    requires HasLength(f, lf) && HasLength(o, lo)
    ensures IntersectUnit(f, o, lf, lo) == Intersect(f, o)
  {
    var tf, to := Tangent(f, lf), Tangent(o, lo);
    UnitDenominator(f, o, lf, lo);
    if Cross(tf, to) != 0.0 {
      var q := IntersectUnit(f, o, lf, lo).value;
      UnitPointOnLines(f, o, lf, lo);
      IntersectUnique(f, o, q);
    }
  }

  lemma UnitDenominator(f: Face, o: Face, lf: real, lo: real)
    requires HasLength(f, lf) && HasLength(o, lo)
    ensures Cross(Tangent(f, lf), Tangent(o, lo)) == 0.0 <==> Cross(Dir(f), Dir(o)) == 0.0
  {
    var kf, ko := 1.0 / lf, 1.0 / lo;
    NormalIsScaledPerp(f, lf);
    NormalIsScaledPerp(o, lo);
    CrossScale(Dir(f), Dir(o), kf, ko);
    PositiveFactorKeepsSign(kf * ko, Cross(Dir(f), Dir(o)));
  }

  lemma UnitPointOnLines(f: Face, o: Face, lf: real, lo: real)
    requires HasLength(f, lf) && HasLength(o, lo)
    requires Cross(Tangent(f, lf), Tangent(o, lo)) != 0.0
    ensures var q := IntersectUnit(f, o, lf, lo).value;
            Cross(Dir(f), Sub(q, f.beg)) == 0.0 && Cross(Dir(o), Sub(q, o.beg)) == 0.0
  {
    var tf, to := Tangent(f, lf), Tangent(o, lo);
    var num := Cross(Sub(o.beg, f.beg), to);
    var t := num / Cross(tf, to);
    var q := IntersectUnit(f, o, lf, lo).value;
    assert q == Add(f.beg, Scale(tf, t));
    assert Cross(Dir(f), Sub(q, f.beg)) == 0.0 by {
      assert Sub(q, f.beg) == Scale(tf, t);
      assert Dir(f) == Scale(tf, lf);
      CrossScale(tf, tf, lf, t);
    }
    assert Cross(to, Sub(q, o.beg)) == 0.0 by {
      assert Sub(q, o.beg) == Add(Sub(f.beg, o.beg), Scale(tf, t));
      calc {
        Cross(to, Sub(q, o.beg));
      == Cross(to, Sub(f.beg, o.beg)) + t * Cross(to, tf);
      == num - t * Cross(tf, to);
      == 0.0;
      }
    }
    assert Dir(o) == Scale(to, lo);
    CrossScale(to, Sub(q, o.beg), lo, 1.0);
    assert Scale(Sub(q, o.beg), 1.0) == Sub(q, o.beg);
  }

  lemma CrossScale(a: Vec, b: Vec, j: real, k: real)
    ensures Cross(Scale(a, j), Scale(b, k)) == (j * k) * Cross(a, b)
  {
  }

  /** Two non-parallel lines meet in one point only. */
  lemma IntersectUnique(f: Face, o: Face, q: Vec)
    requires Cross(Dir(f), Dir(o)) != 0.0
    requires Cross(Dir(f), Sub(q, f.beg)) == 0.0
    requires Cross(Dir(o), Sub(q, o.beg)) == 0.0
    ensures Intersect(f, o) == Some(q)
  {
    var r := Intersect(f, o).value;
    var d, e := Dir(f), Dir(o);
    // r - q is parallel to both d and e, hence zero
    var w := Sub(r, q);
    assert Cross(d, w) == Cross(d, Sub(r, f.beg)) - Cross(d, Sub(q, f.beg));
    assert Cross(e, w) == Cross(e, Sub(r, o.beg)) - Cross(e, Sub(q, o.beg));
    assert Cross(d, w) == 0.0 && Cross(e, w) == 0.0;
    ParallelToTwo(d, e, w);
  }

  lemma ParallelToTwo(d: Vec, e: Vec, w: Vec)
    requires Cross(d, e) != 0.0
    requires Cross(d, w) == 0.0 && Cross(e, w) == 0.0
    ensures w == Zero
  {
    calc {
      w.x * Cross(d, e);
    == d.x * Cross(e, w) - e.x * Cross(d, w);
    == 0.0;
    }
    calc {
      w.y * Cross(d, e);
    == d.y * Cross(e, w) - e.y * Cross(d, w);
    == 0.0;
    }
  }

  // ---------------------------------------------------------------------
  // shiftOut

  /** The shifted face keeps its length, tangent and normal. */
  lemma ShiftOutKeepsFrame(f: Face, distance: real, len: real)
    requires HasLength(f, len)
    ensures HasLength(ShiftOut(f, distance, len), len)
    ensures Tangent(ShiftOut(f, distance, len), len) == Tangent(f, len)
    ensures Normal(ShiftOut(f, distance, len), len) == Normal(f, len)
  {
  }

  /** Every point of the shifted line lies at signed offset `distance` from
      the original line. */
  lemma ShiftedLineOffset(f: Face, distance: real, len: real, p: Vec)
    requires HasLength(f, len)
    requires Cross(Dir(f), Sub(p, ShiftOut(f, distance, len).beg)) == 0.0
    ensures SignedOffset(f, len, p) == distance
  {
    var b' := ShiftOut(f, distance, len).beg;
    var n, k := Normal(f, len), 1.0 / len;
    NormalIsScaledPerp(f, len);
    assert Sub(p, f.beg) == Add(Sub(p, b'), Sub(b', f.beg));
    DotAdd(Sub(p, b'), Sub(b', f.beg), n);
    DotScale(Perp(Dir(f)), Sub(p, b'), k);
    assert Dot(n, Sub(p, b')) == k * Cross(Dir(f), Sub(p, b'));
  }

  /** A face shifted outwards (`distance >= 0`) starts at a point that is
      not on the right of the original face; shifted inwards it is. */
  lemma ShiftOutNotOnTheRight(f: Face, distance: real, len: real)
    requires HasLength(f, len)
    ensures OnTheRight(f, ShiftOut(f, distance, len).beg) <==> distance < 0.0
    ensures OnTheRight(f, ShiftOut(f, distance, len).end) <==> distance < 0.0
  {
    var r := ShiftOut(f, distance, len);
    OnTheRightMatchesSource(f, r.beg, len);
    OnTheRightMatchesSource(f, r.end, len);
    assert Cross(Dir(f), Sub(r.end, r.beg)) == 0.0;
    ShiftedLineOffset(f, distance, len, r.end);
  }
}
