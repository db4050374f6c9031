/** Points and normals of the two gratings, the groove vector, and the detector. */
module GratingSurfaces {
  import opened RealArith
  import opened Optics
  import opened Grating

  /** A vector divided by its length. */
  function Normalise(sqrt: SquareRoot, w: Vec): Vec
    requires Norm(sqrt, w) != 0.0
  {
    var norm := Norm(sqrt, w);
    Vec(w.x / norm, w.y / norm, w.z / norm)
  }

  lemma NormaliseIsUnit(sqrt: SquareRoot, w: Vec)
    requires Exact(sqrt) && Norm(sqrt, w) != 0.0
    ensures Normalised(Normalise(sqrt, w), w, Norm(sqrt, w)) && Unit(Normalise(sqrt, w))
  {
    SquareNonNeg(w.x);
    SquareNonNeg(w.y);
    SquareNonNeg(w.z);
    RootSquared(sqrt, Dot(w, w));
    var m := Norm(sqrt, w);
    DivTimes(w.x, m);
    DivTimes(w.y, m);
    DivTimes(w.z, m);
    var n := Normalise(sqrt, w);
    assert Times(m, n.x) == Times(n.x, m) && Times(m, n.y) == Times(n.y, m) && Times(m, n.z) == Times(n.z, m);
    NormalisedMirror(w, n, w, m);
  }

  // ---- Normals of raytrace_get_n before normalisation ------------------------------------

  function SphDirection(p: Vec, g: Geom): Vec { Minus(GratingCentre(g), p) }

  /** `xz_rad`. */
  function RadiusXZ(sqrt: SquareRoot, p: Vec, g: Geom): real {
    var c := GratingCentre(g);
    sqrt(Times(p.x - c.x, p.x - c.x) + Times(p.z - c.z, p.z - c.z))
  }

  function TorDirection(sqrt: SquareRoot, p: Vec, g: Geom): Vec
    requires RadiusXZ(sqrt, p, g) != 0.0
  {
    var c, rad := GratingCentre(g), RadiusXZ(sqrt, p, g);
    Vec(Times(-(c.x - p.x), TorusMajor(g) - rad) / rad, c.y - p.y, Times(-(c.z - p.z), TorusMajor(g) - rad) / rad)
  }

  predicate OnSphGrating(sqrt: SquareRoot, p: Vec, g: Geom) {
    var c := GratingCentre(g);
    && Times(g.R, g.R) - Times(p.x - c.x, p.x - c.x) - Times(p.y - c.y, p.y - c.y) >= 0.0
    && p.z == SphGratingZ(sqrt, p.x, p.y, g)
  }

  predicate OnTorGrating(sqrt: SquareRoot, p: Vec, g: Geom) {
    var c, r := GratingCentre(g), TorusRadius(sqrt, p.y, g);
    && Times(TorusMinor(g), TorusMinor(g)) - Times(p.y - c.y, p.y - c.y) >= 0.0
    && Times(r, r) - Times(p.x - c.x, p.x - c.x) >= 0.0
    && p.z == TorGratingZ(sqrt, p.x, p.y, g)
  }

  /** On the spherical grating the vector to the centre has length R. */
  lemma SphNormalLength(sqrt: SquareRoot, p: Vec, g: Geom)
    requires Exact(sqrt) && g.R > 0.0 && OnSphGrating(sqrt, p, g)
    ensures Norm(sqrt, SphDirection(p, g)) == g.R
    ensures Unit(Normalise(sqrt, SphDirection(p, g)))
  {
    var c, w := GratingCentre(g), SphDirection(p, g);
    var q := Times(g.R, g.R) - Times(p.x - c.x, p.x - c.x) - Times(p.y - c.y, p.y - c.y);
    RootSquared(sqrt, q);
    assert w.z == sqrt(q);
    SquareFlip(c.x, p.x);
    SquareFlip(c.y, p.y);
    assert Dot(w, w) == Times(g.R, g.R);
    TimesPos(g.R, g.R);
    RootSquared(sqrt, Times(g.R, g.R));
    SquaresEqual(sqrt(Times(g.R, g.R)), g.R);
    NormaliseIsUnit(sqrt, w);
  }

  lemma SquareFlip(a: real, b: real)
    ensures Times(a - b, a - b) == Times(b - a, b - a)
  {}

  /** On the toroidal grating the vector of raytrace_get_n has the length of the minor radius,
      R * cos(alpha) * cos(beta). */
  lemma TorNormalLength(sqrt: SquareRoot, p: Vec, g: Geom)
    requires Exact(sqrt) && TorusMinor(g) > 0.0 && OnTorGrating(sqrt, p, g) && TorusRadius(sqrt, p.y, g) > 0.0
    ensures RadiusXZ(sqrt, p, g) == TorusRadius(sqrt, p.y, g)
    ensures Norm(sqrt, TorDirection(sqrt, p, g)) == g.R * g.cosAlpha * g.cosBeta
    ensures Unit(Normalise(sqrt, TorDirection(sqrt, p, g)))
  {
    var c, r := GratingCentre(g), TorusRadius(sqrt, p.y, g);
    var q2 := Times(TorusMinor(g), TorusMinor(g)) - Times(p.y - c.y, p.y - c.y);
    RootSquared(sqrt, q2);
    var q := sqrt(q2);
    var z2 := Times(r, r) - Times(p.x - c.x, p.x - c.x);
    RootSquared(sqrt, z2);
    SquareFlip(p.z, c.z);
    assert c.z - p.z == sqrt(z2);
    TimesPos(r, r);
    RootSquared(sqrt, Times(r, r));
    SquaresEqual(sqrt(Times(r, r)), r);
    assert RadiusXZ(sqrt, p, g) == r;
    var w := TorDirection(sqrt, p, g);
    assert TorusMajor(g) - r == -q;
    TorComponents(p.x - c.x, p.z - c.z, q, r, w.x, w.z);
    SquareFlip(p.y, c.y);
    assert Dot(w, w) == Times(TorusMinor(g), TorusMinor(g));
    TimesPos(TorusMinor(g), TorusMinor(g));
    RootSquared(sqrt, Dot(w, w));
    SquaresEqual(Norm(sqrt, w), TorusMinor(g));
    NormaliseIsUnit(sqrt, w);
  }

  lemma TorComponents(x: real, z: real, q: real, r: real, wx: real, wz: real)
    requires r > 0.0 && Times(r, r) == Times(x, x) + Times(z, z)
    requires wx == Times(x, -q) / r && wz == Times(z, -q) / r
    ensures Times(wx, wx) + Times(wz, wz) == Times(q, q)
  {
    DivTimes(Times(x, -q), r);
    DivTimes(Times(z, -q), r);
    TimesPos(r, r);
    calc {
      Times(Times(r, r), Times(wx, wx) + Times(wz, wz));
      Times(Times(wx, r), Times(wx, r)) + Times(Times(wz, r), Times(wz, r));
      Times(x * -q, x * -q) + Times(z * -q, z * -q);
      Times(Times(x, x) + Times(z, z), q * q);
      Times(Times(r, r), Times(q, q));
    }
    Cancel(Times(r, r), Times(wx, wx) + Times(wz, wz), Times(q, q));
  }

  /** In the symmetry plane the two gratings are the same curve. */
  lemma GratingsCoincide(sqrt: SquareRoot, x: real, g: Geom)
    requires Exact(sqrt) && TorusMinor(g) >= 0.0
    ensures TorGratingZ(sqrt, x, 0.0, g) == SphGratingZ(sqrt, x, 0.0, g)
  {
    var c, t := GratingCentre(g), TorusMinor(g);
    SquareNonNeg(t);
    RootSquared(sqrt, Times(t, t));
    SquaresEqual(sqrt(Times(t, t)), t);
    assert Times(0.0, 0.0) == 0.0;
    TorusRadiusSum(g);
    assert TorusRadius(sqrt, 0.0, g) == g.R;
  }

  lemma TorusRadiusSum(g: Geom)
    ensures TorusMajor(g) + TorusMinor(g) == g.R
  {}

  // ---- Normals touch from inside ---------------------------------------------------------

  lemma DifferenceSquared(w: Vec, u: Vec)
    ensures Dot(Minus(w, u), Minus(w, u)) == Dot(w, w) - 2.0 * Dot(u, w) + Dot(u, u)
  {
    SquareOfDifference(w.x, u.x);
    SquareOfDifference(w.y, u.y);
    SquareOfDifference(w.z, u.z);
  }

  lemma SquareOfDifference(a: real, b: real)
    ensures Times(a - b, a - b) == Times(a, a) - 2.0 * Times(b, a) + Times(b, b)
  {}

  lemma DotNonNeg(v: Vec)
    ensures Dot(v, v) >= 0.0
  {
    SquareNonNeg(v.x);
    SquareNonNeg(v.y);
    SquareNonNeg(v.z);
  }

  /** The normal of the spherical grating is the normal of its surface, to the inside: the whole grating lies on its
      side of the plane through the point, and touches the plane only there. */
  lemma SphSupports(sqrt: SquareRoot, p: Vec, q: Vec, g: Geom)
    requires Exact(sqrt) && g.R > 0.0 && OnSphGrating(sqrt, p, g) && OnSphGrating(sqrt, q, g)
    ensures Dot(Minus(q, p), SphDirection(p, g)) >= 0.0
    ensures Dot(Minus(q, p), SphDirection(p, g)) == 0.0 ==> q == p
  {
    var w, u := SphDirection(p, g), SphDirection(q, g);
    SphLengths(sqrt, p, g);
    SphLengths(sqrt, q, g);
    FromCentre(p, q, GratingCentre(g));
    EqualLengths(w, u);
  }

  lemma FromCentre(p: Vec, q: Vec, c: Vec)
    ensures Minus(Minus(c, p), Minus(c, q)) == Minus(q, p)
    ensures Minus(q, p) == Vec(0.0, 0.0, 0.0) ==> q == p
  {}

  lemma EqualLengths(w: Vec, u: Vec)
    requires Dot(w, w) == Dot(u, u)
    ensures Dot(Minus(w, u), w) >= 0.0 && (Dot(Minus(w, u), w) == 0.0 ==> Minus(w, u) == Vec(0.0, 0.0, 0.0))
  {
    MinusDot(w, u, w);
    DifferenceSquared(w, u);
    DotNonNeg(Minus(w, u));
    if Dot(Minus(w, u), w) == 0.0 {
      NoLength(Minus(w, u));
    }
  }

  lemma SphLengths(sqrt: SquareRoot, p: Vec, g: Geom)
    requires Exact(sqrt) && g.R > 0.0 && OnSphGrating(sqrt, p, g)
    ensures Dot(SphDirection(p, g), SphDirection(p, g)) == Times(g.R, g.R)
  {
    SphNormalLength(sqrt, p, g);
    var w := SphDirection(p, g);
    DotNonNeg(w);
    RootSquared(sqrt, Dot(w, w));
  }

  /** The distance of a point of the toroidal grating from the circle inside, seen along y. */
  function Bulge(sqrt: SquareRoot, p: Vec, g: Geom): real {
    sqrt(Times(TorusMinor(g), TorusMinor(g)) - Times(p.y, p.y))
  }

  /** The point, and the direction of its normal, in terms of the unit vector e from the axis of the torus. */
  lemma TorusParts(sqrt: SquareRoot, p: Vec, g: Geom) returns (e: Vec)
    requires Exact(sqrt) && TorusMinor(g) > 0.0 && OnTorGrating(sqrt, p, g) && TorusRadius(sqrt, p.y, g) > 0.0
    ensures Unit(e) && e.y == 0.0
    ensures var k := Bulge(sqrt, p, g);
            && k >= 0.0 && Times(k, k) + Times(p.y, p.y) == Times(TorusMinor(g), TorusMinor(g))
            && RadiusXZ(sqrt, p, g) != 0.0
            && TorDirection(sqrt, p, g) == Add(Scale(-k, e), Vec(0.0, -p.y, 0.0))
            && p == Add(GratingCentre(g), Add(Scale(TorusMajor(g) + k, e), Vec(0.0, p.y, 0.0)))
  {
    TorNormalLength(sqrt, p, g);
    var c, rad, k := GratingCentre(g), RadiusXZ(sqrt, p, g), Bulge(sqrt, p, g);
    assert p.y - c.y == p.y && rad == TorusMajor(g) + k;
    RootSquared(sqrt, Times(TorusMinor(g), TorusMinor(g)) - Times(p.y, p.y));
    e := Vec((p.x - c.x) / rad, 0.0, (p.z - c.z) / rad);
    DivTimes(p.x - c.x, rad);
    DivTimes(p.z - c.z, rad);
    TimesSwaps(e.x, rad);
    TimesSwaps(e.z, rad);
    RadiusSquared(sqrt, p, g);
    UnitFromAxis(e, p.x - c.x, p.z - c.z, rad);
    ScaledQuotient(p.x - c.x, k, rad);
    ScaledQuotient(p.z - c.z, k, rad);
  }

  lemma RadiusSquared(sqrt: SquareRoot, p: Vec, g: Geom)
    requires Exact(sqrt)
    ensures var c, rad := GratingCentre(g), RadiusXZ(sqrt, p, g);
            Times(rad, rad) == Times(p.x - c.x, p.x - c.x) + Times(p.z - c.z, p.z - c.z)
  {
    var c := GratingCentre(g);
    SquareNonNeg(p.x - c.x);
    SquareNonNeg(p.z - c.z);
    RootSquared(sqrt, Times(p.x - c.x, p.x - c.x) + Times(p.z - c.z, p.z - c.z));
  }

  lemma UnitFromAxis(e: Vec, x: real, z: real, rad: real)
    requires rad > 0.0 && e.y == 0.0 && Times(rad, e.x) == x && Times(rad, e.z) == z
    requires Times(rad, rad) == Times(x, x) + Times(z, z)
    ensures Unit(e)
  {
    TimesPos(rad, rad);
    ProductSquared(rad, e.x, x);
    ProductSquared(rad, e.z, z);
    TimesSum(Times(rad, rad), Times(e.x, e.x), -Times(e.z, e.z));
    assert Times(Times(rad, rad), Dot(e, e)) == Times(Times(rad, rad), 1.0);
    Cancel(Times(rad, rad), Dot(e, e), 1.0);
  }

  lemma ProductSquared(k: real, a: real, b: real)
    requires Times(k, a) == b
    ensures Times(Times(k, k), Times(a, a)) == Times(b, b)
  {}

  lemma ScaledQuotient(x: real, k: real, rad: real)
    requires rad != 0.0
    ensures Times(x, -k) / rad == Times(-k, x / rad)
  {}

  /** What the distance from the plane comes to. */
  lemma TorusScalar(r: real, kp: real, kq: real, yp: real, yq: real, m2: real, e: real)
    requires r >= 0.0 && kp >= 0.0 && kq >= 0.0 && e <= 1.0
    requires Times(kp, kp) + Times(yp, yp) == m2 && Times(kq, kq) + Times(yq, yq) == m2
    ensures Times(Times(kp, r), 1.0 - e) + m2 - Times(Times(kp, kq), e) - Times(yp, yq) >= 0.0
  {
    SquareOfDifference(kp, kq);
    SquareOfDifference(yp, yq);
    SquareNonNeg(kp - kq);
    SquareNonNeg(yp - yq);
    TimesNonNeg(kp, r);
    TimesNonNeg(kp, kq);
    TimesNonNeg(Times(kp, r), 1.0 - e);
    TimesNonNeg(Times(kp, kq), 1.0 - e);
    TimesSum(Times(kp, kq), 1.0, e);
    assert Times(kq, kp) == Times(kp, kq) && Times(yq, yp) == Times(yp, yq);
    assert Times(Times(kp, kq), 1.0) == Times(kp, kq);
  }

  lemma TimesNonNeg(x: real, y: real)
    requires x >= 0.0 && y >= 0.0
    ensures Times(x, y) >= 0.0
  {}

  /** Unit vectors have a product of at most one. */
  lemma UnitProduct(e: Vec, d: Vec)
    requires Unit(e) && Unit(d)
    ensures Dot(e, d) <= 1.0
  {
    DifferenceSquared(d, e);
    DotNonNeg(Minus(d, e));
  }

  /** The same for the toroidal grating: all of it lies on the side of the plane through the point to which the
      normal points. */
  lemma TorSupports(sqrt: SquareRoot, p: Vec, q: Vec, g: Geom)
    requires Exact(sqrt) && TorusMinor(g) > 0.0 && TorusMajor(g) >= 0.0
    requires OnTorGrating(sqrt, p, g) && TorusRadius(sqrt, p.y, g) > 0.0
    requires OnTorGrating(sqrt, q, g) && TorusRadius(sqrt, q.y, g) > 0.0
    ensures RadiusXZ(sqrt, p, g) != 0.0 && Dot(Minus(q, p), TorDirection(sqrt, p, g)) >= 0.0
  {
    var d := TorusParts(sqrt, p, g);
    var e := TorusParts(sqrt, q, g);
    var kp, kq, r := Bulge(sqrt, p, g), Bulge(sqrt, q, g), TorusMajor(g);
    UnitProduct(e, d);
    TorusScalar(r, kp, kq, p.y, q.y, Times(TorusMinor(g), TorusMinor(g)), Dot(e, d));
    PlaneDistance(GratingCentre(g), p, q, d, e, kp, kq, r);
    PlaneExpands(kp, kq, r, p.y, q.y, Dot(e, d));
  }

  lemma PlaneDistance(c: Vec, p: Vec, q: Vec, d: Vec, e: Vec, kp: real, kq: real, r: real)
    requires Unit(d) && d.y == 0.0 && e.y == 0.0
    requires p == Add(c, Add(Scale(r + kp, d), Vec(0.0, p.y, 0.0)))
    requires q == Add(c, Add(Scale(r + kq, e), Vec(0.0, q.y, 0.0)))
    ensures Dot(Minus(q, p), Add(Scale(-kp, d), Vec(0.0, -p.y, 0.0)))
         == Times(-kp, Times(r + kq, Dot(e, d)) - (r + kp)) + Times(q.y - p.y, -p.y)
  {
    var w := Add(Scale(-kp, d), Vec(0.0, -p.y, 0.0));
    var v := Minus(q, p);
    AlongAxis(kp, r + kq, r + kp, e.x, d.x, v.x);
    AlongAxis(kp, r + kq, r + kp, e.z, d.z, v.z);
    assert v.x == Times(r + kq, e.x) - Times(r + kp, d.x) && v.z == Times(r + kq, e.z) - Times(r + kp, d.z);
    assert w.y == -p.y && v.y == q.y - p.y;
    TimesSum(r + kq, Times(e.x, d.x), -Times(e.z, d.z));
    TimesSum(r + kp, Times(d.x, d.x), -Times(d.z, d.z));
    assert Times(0.0, 0.0) == 0.0 && Times(r + kp, 1.0) == r + kp;
    var a, b := Times(r + kq, Times(e.x, d.x)) - Times(r + kp, Times(d.x, d.x)),
                Times(r + kq, Times(e.z, d.z)) - Times(r + kp, Times(d.z, d.z));
    TimesSum(-kp, a, -b);
    assert a - -b == Times(r + kq, Dot(e, d)) - (r + kp);
  }

  lemma AlongAxis(kp: real, a: real, b: real, ex: real, dx: real, vx: real)
    requires vx == Times(a, ex) - Times(b, dx)
    ensures Times(vx, Times(-kp, dx)) == Times(-kp, Times(a, Times(ex, dx)) - Times(b, Times(dx, dx)))
  {
    assert Times(vx, dx) == Times(a, Times(ex, dx)) - Times(b, Times(dx, dx));
    TimesThree(vx, -kp, dx);
  }

  lemma PlaneExpands(kp: real, kq: real, r: real, yp: real, yq: real, e: real)
    ensures Times(-kp, Times(r + kq, e) - (r + kp)) + Times(yq - yp, -yp)
         == Times(Times(kp, r), 1.0 - e) + (Times(kp, kp) + Times(yp, yp)) - Times(Times(kp, kq), e) - Times(yp, yq)
  {}

  // ---- The circle ------------------------------------------------------------------------

  lemma CircleSquares(r: real, s: real, c: real)
    requires Times(s, s) + Times(c, c) == 1.0
    ensures Times(r * s, r * s) + Times(r * c, r * c) == Times(r, r)
    ensures Times(-(r * s), -(r * s)) == Times(r * s, r * s) && Times(-(r * c), -(r * c)) == Times(r * c, r * c)
  {
    assert Times(r * s, r * s) == Times(Times(r, r), Times(s, s));
    assert Times(r * c, r * c) == Times(Times(r, r), Times(c, c));
    TimesSum(Times(r, r), Times(s, s), -Times(c, c));
  }

  lemma OnCircle(sqrt: SquareRoot, p: Vec, g: Geom)
    requires Exact(sqrt) && g.R > 0.0
    requires var c := DetectorCentre(g);
             Times(p.x - c.x, p.x - c.x) + Times(p.z - c.z, p.z - c.z) == Times(g.R / 2.0, g.R / 2.0)
    ensures DetectorHeight(sqrt, p, g) == 0.0
  {
    var h := g.R / 2.0;
    SquareNonNeg(h);
    RootSquared(sqrt, Times(h, h));
    SquaresEqual(sqrt(Times(h, h)), h);
  }

  /** The grating, the focus of the telescope and the detector are on one circle: the vertex of the spherical grating
      is on the axis of the telescope at height -(v+b) - R*cos(alpha); the vertex, the focus and the centre of
      the grating are at height 0 above the detector; and the vertex tangent is a unit vector that is
      tangent to the grating at its vertex. */
  lemma RowlandCircle(sqrt: SquareRoot, g: Geom)
    requires Exact(sqrt) && g.R > 0.0 && g.cosAlpha >= 0.0
    requires Times(g.sinAlpha, g.sinAlpha) + Times(g.cosAlpha, g.cosAlpha) == 1.0
    ensures var focus, vertex := Vec(0.0, 0.0, -(g.v + g.b)), Vec(0.0, 0.0, -(g.v + g.b) - g.R * g.cosAlpha);
            && OnSphGrating(sqrt, vertex, g) && DetectorHeight(sqrt, vertex, g) == 0.0
            && DetectorHeight(sqrt, focus, g) == 0.0 && DetectorHeight(sqrt, GratingCentre(g), g) == 0.0
            && Unit(VertexTangent(g)) && Dot(VertexTangent(g), SphDirection(vertex, g)) == 0.0
  {
    var focus, vertex := Vec(0.0, 0.0, -(g.v + g.b)), Vec(0.0, 0.0, -(g.v + g.b) - g.R * g.cosAlpha);
    CircleSquares(g.R, g.sinAlpha, g.cosAlpha);
    CircleSquares(g.R / 2.0, g.sinAlpha, g.cosAlpha);
    VertexOnGrating(sqrt, vertex, g);
    CentreDistances(g, focus, vertex);
    OnCircle(sqrt, focus, g);
    OnCircle(sqrt, vertex, g);
    OnCircle(sqrt, GratingCentre(g), g);
    var w := SphDirection(vertex, g);
    assert w == Vec(-(g.R * g.sinAlpha), 0.0, g.R * g.cosAlpha);
    TangentProduct(g.R, g.sinAlpha, g.cosAlpha);
    assert Times(0.0, 0.0) == 0.0;
  }

  lemma TangentProduct(r: real, s: real, c: real)
    ensures Times(c, -(r * s)) + Times(s, r * c) == 0.0
  {}

  lemma VertexOnGrating(sqrt: SquareRoot, vertex: Vec, g: Geom)
    requires Exact(sqrt) && g.R > 0.0 && g.cosAlpha >= 0.0
    requires Times(g.R * g.sinAlpha, g.R * g.sinAlpha) + Times(g.R * g.cosAlpha, g.R * g.cosAlpha) == Times(g.R, g.R)
    requires vertex == Vec(0.0, 0.0, -(g.v + g.b) - g.R * g.cosAlpha)
    ensures OnSphGrating(sqrt, vertex, g)
  {
    var k := g.R * g.cosAlpha;
    TimesNonNeg(g.R, g.cosAlpha);
    SquareNonNeg(k);
    RootSquared(sqrt, Times(k, k));
    SquaresEqual(sqrt(Times(k, k)), k);
    assert 0.0 - GratingCentre(g).x == g.R * g.sinAlpha && Times(0.0, 0.0) == 0.0;
  }

  lemma CentreDistances(g: Geom, focus: Vec, vertex: Vec)
    requires focus == Vec(0.0, 0.0, -(g.v + g.b)) && vertex == Vec(0.0, 0.0, -(g.v + g.b) - g.R * g.cosAlpha)
    ensures var c, s, k := DetectorCentre(g), (g.R / 2.0) * g.sinAlpha, (g.R / 2.0) * g.cosAlpha;
            && focus.x - c.x == s && focus.z - c.z == k && vertex.x - c.x == s && vertex.z - c.z == -k
            && GratingCentre(g).x - c.x == -s && GratingCentre(g).z - c.z == k
  {}

  // ---- Groove vector and detector --------------------------------------------------------

  /** The tangent at the grating vertex: (sin(pi/2 - alpha), 0, cos(pi/2 - alpha)). */
  function VertexTangent(g: Geom): Vec { Vec(g.cosAlpha, 0.0, g.sinAlpha) }

  /** raytrace_get_g without its line-spacing output. */
  function GrooveVector(sqrt: SquareRoot, n: Vec, g: Geom): Vec
    requires Norm(sqrt, Cross(VertexTangent(g), n)) != 0.0
  {
    Normalise(sqrt, Cross(VertexTangent(g), n))
  }

  /** The groove vector is a unit vector orthogonal to the normal and to the vertex tangent, and, unless
      the angle of the grating is zero, not along the axis: all that vecray requires. */
  lemma GrooveIsOrthonormal(sqrt: SquareRoot, n: Vec, g: Geom)
    requires Exact(sqrt) && Unit(n) && Norm(sqrt, Cross(VertexTangent(g), n)) != 0.0
    ensures Orthonormal(n, GrooveVector(sqrt, n, g))
    ensures Dot(VertexTangent(g), GrooveVector(sqrt, n, g)) == 0.0
    ensures g.sinAlpha != 0.0 ==> Times(GrooveVector(sqrt, n, g).z, GrooveVector(sqrt, n, g).z) < 1.0
  {
    var x := VertexTangent(g);
    var w := Cross(x, n);
    var u, m := Normalise(sqrt, w), Norm(sqrt, w);
    NormaliseIsUnit(sqrt, w);
    CrossOrthogonal(x, n);
    ScaleDot(m, u, n);
    ScaleDot(m, u, x);
    Cancel(m, Dot(u, n), 0.0);
    Cancel(m, Dot(u, x), 0.0);
    assert Dot(n, u) == Dot(u, n) && Dot(x, u) == Dot(u, x);
    if g.sinAlpha != 0.0 {
      NotAlongAxis(u, g);
    }
  }

  lemma NotAlongAxis(u: Vec, g: Geom)
    requires Unit(u) && Dot(VertexTangent(g), u) == 0.0 && g.sinAlpha != 0.0
    ensures Times(u.z, u.z) < 1.0
  {
    SquareNonNeg(u.x);
    SquareNonNeg(u.y);
    if Times(u.z, u.z) >= 1.0 {
      assert Times(u.x, u.x) == 0.0;
      SquaresEqual(if u.x < 0.0 then -u.x else u.x, 0.0);
      assert Times(g.cosAlpha, 0.0) == 0.0 && Times(0.0, u.y) == 0.0 && Times(g.sinAlpha, 0.0) == 0.0;
      Cancel(g.sinAlpha, u.z, 0.0);
    }
  }

  /** The point is on the grating, spherical or toroidal. */
  predicate OnGrating(sqrt: SquareRoot, toroidal: bool, p: Vec, g: Geom) {
    if toroidal then TorusMinor(g) > 0.0 && OnTorGrating(sqrt, p, g) && TorusRadius(sqrt, p.y, g) > 0.0
    else g.R > 0.0 && OnSphGrating(sqrt, p, g)
  }

  lemma DirectionHasLength(sqrt: SquareRoot, toroidal: bool, p: Vec, g: Geom)
    requires Exact(sqrt) && OnGrating(sqrt, toroidal, p, g)
    ensures toroidal ==> RadiusXZ(sqrt, p, g) != 0.0 && Norm(sqrt, TorDirection(sqrt, p, g)) != 0.0
    ensures !toroidal ==> Norm(sqrt, SphDirection(p, g)) != 0.0
  {
    if toroidal {
      TorNormalLength(sqrt, p, g);
    } else {
      SphNormalLength(sqrt, p, g);
    }
  }

  /** raytrace_get_n on a grating. */
  function GratingNormal(sqrt: SquareRoot, toroidal: bool, p: Vec, g: Geom): (n: Vec)
    requires Exact(sqrt) && OnGrating(sqrt, toroidal, p, g)
    ensures Unit(n)
  {
    DirectionHasLength(sqrt, toroidal, p, g);
    NormaliseIsUnit(sqrt, if toroidal then TorDirection(sqrt, p, g) else SphDirection(p, g));
    if toroidal then Normalise(sqrt, TorDirection(sqrt, p, g)) else Normalise(sqrt, SphDirection(p, g))
  }

  /** From the point where a ray meets a grating to the ray that leaves it: with the normal and the groove
      vector computed there the ray can be diffracted, and if the root exists, the direction that is
      computed is the one that obeys the law. */
  lemma GratingBounce(sqrt: SquareRoot, m: real, wave: real, d: real, i: Vec, toroidal: bool, p: Vec, g: Geom)
    requires Exact(sqrt) && OnGrating(sqrt, toroidal, p, g) && g.sinAlpha != 0.0 && d != 0.0
    requires Norm(sqrt, Cross(VertexTangent(g), GratingNormal(sqrt, toroidal, p, g))) != 0.0
    ensures var n, k := GratingNormal(sqrt, toroidal, p, g), OrderShift(m, wave, d);
            var h := GrooveVector(sqrt, n, g);
            && Orthonormal(n, h) && Times(h.z, h.z) < 1.0 && Dot(VertexTangent(g), h) == 0.0
            && (Discriminant(k, i, n, h) >= 0.0 ==> Obeys(Diffracted(sqrt, k, i, n, h), i, m, wave, d, n, h))
  {
    var n, k := GratingNormal(sqrt, toroidal, p, g), OrderShift(m, wave, d);
    GrooveIsOrthonormal(sqrt, n, g);
    var h := GrooveVector(sqrt, n, g);
    GratingEquation(sqrt, m, wave, d, i, n, h, Diffracted(sqrt, k, i, n, h));
  }

  /** The loop that diffracts every ray that is not lost off the grating, in order -1: with the normal and the
      groove vector computed at its point each ray leaves in the direction that obeys the law, if there is
      one.  `spacing` is the distance of the lines at a ray. */
  method DiffractRays(sqrt: SquareRoot, spacing: Ray -> real, toroidal: bool, g: Geom, rays: array<Ray>)
    requires Exact(sqrt) && g.sinAlpha != 0.0
    requires forall k :: 0 <= k < rays.Length && !rays[k].lost ==> CanBounce(sqrt, spacing, toroidal, g, rays[k])
    modifies rays
    ensures forall k :: 0 <= k < rays.Length ==> Bounced(sqrt, spacing, toroidal, g, old(rays[k]), rays[k])
  {
    for j := 0 to rays.Length
      invariant forall k :: 0 <= k < j ==> Bounced(sqrt, spacing, toroidal, g, old(rays[k]), rays[k])
      invariant forall k :: j <= k < rays.Length ==> rays[k] == old(rays[k])
    {
      if !rays[j].lost {
        var ray := rays[j];
        var normal := GratingNormal(sqrt, toroidal, ray.Pos(), g);
        var groove := GrooveVector(sqrt, normal, g);
        GrooveIsOrthonormal(sqrt, normal, g);
        var flips := VecRay(sqrt, -1.0, spacing(ray), rays, j, normal, groove);
        assert Bounced(sqrt, spacing, toroidal, g, ray, rays[j]);
      }
    }
  }

  /** The ray is on the grating, not where the normal is along the vertex tangent. */
  ghost predicate CanBounce(sqrt: SquareRoot, spacing: Ray -> real, toroidal: bool, g: Geom, ray: Ray)
    requires Exact(sqrt)
  {
    && OnGrating(sqrt, toroidal, ray.Pos(), g) && spacing(ray) != 0.0
    && Norm(sqrt, Cross(VertexTangent(g), GratingNormal(sqrt, toroidal, ray.Pos(), g))) != 0.0
  }

  /** A lost ray stays as it is; another one keeps all but its direction, and that obeys the law. */
  ghost predicate Bounced(sqrt: SquareRoot, spacing: Ray -> real, toroidal: bool, g: Geom, ray: Ray, ray': Ray)
    requires Exact(sqrt)
  {
    if ray.lost then ray' == ray
    else
      && CanBounce(sqrt, spacing, toroidal, g, ray)
      && ray'.Pos() == ray.Pos() && ray'.lambda == ray.lambda && !ray'.lost
      && var n := GratingNormal(sqrt, toroidal, ray.Pos(), g);
         forall o :: Obeys(o, ray.Vel(), -1.0, ray.lambda, spacing(ray), n, GrooveVector(sqrt, n, g)) ==>
                       ray'.Vel() == o
  }

  /** The height above the detector that raytrace_mapdetector computes. */
  function DetectorHeight(sqrt: SquareRoot, p: Vec, g: Geom): real {
    var c := DetectorCentre(g);
    g.R / 2.0 - sqrt(Times(p.x - c.x, p.x - c.x) + Times(p.z - c.z, p.z - c.z))
  }

  /** Every point of the detector surface is mapped to height 0. */
  lemma DetectorHeightZero(sqrt: SquareRoot, x: real, y: real, g: Geom)
    requires Exact(sqrt) && g.R > 0.0 && DetectorHeight2(x, g) >= 0.0
    ensures DetectorHeight(sqrt, Vec(x, y, DetectorZ(sqrt, x, y, g)), g) == 0.0
  {
    var c, s := DetectorCentre(g), sqrt(DetectorHeight2(x, g));
    var p := Vec(x, y, DetectorZ(sqrt, x, y, g));
    RootSquared(sqrt, DetectorHeight2(x, g));
    assert p.z - c.z == s;
    HalfRadius(sqrt, g.R / 2.0);
    assert Times(p.x - c.x, p.x - c.x) + Times(p.z - c.z, p.z - c.z) == Times(g.R / 2.0, g.R / 2.0);
  }

  lemma HalfRadius(sqrt: SquareRoot, h: real)
    requires Exact(sqrt) && h > 0.0
    ensures sqrt(Times(h, h)) == h
  {
    TimesPos(h, h);
    RootSquared(sqrt, Times(h, h));
    SquaresEqual(sqrt(Times(h, h)), h);
  }
}
