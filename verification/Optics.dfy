/** Surfaces, normals, reflection and advance of the ray tracer (raytrace/ray_funcs.c),
    over exact real arithmetic.

    `double` is modelled by `real`.  The C library's square root is a parameter `sqrt`;
    `Exact(sqrt)` says that it returns the non-negative root of every non-negative number.
    The grating angle alpha only ever enters through its sine and cosine, so the geometry
    stores those two numbers. */
module Optics {
  import opened RealArith

  datatype Vec = Vec(x: real, y: real, z: real)

  /** raytrace_ray: position, direction, wavelength, lost flag. */
  datatype Ray = Ray(x: real, y: real, z: real, vx: real, vy: real, vz: real, lambda: real, lost: bool) {
    function Pos(): Vec { Vec(x, y, z) }
    function Vel(): Vec { Vec(vx, vy, vz) }

    /** The same ray, now moving in the direction u. */
    function Towards(u: Vec): Ray { this.(vx := u.x, vy := u.y, vz := u.z) }
  }

  /** raytrace_geom.  `cosBeta` is the cosine of the fixed angle that ray_funcs.c uses for the
      toroidal grating. */
  datatype Geom = Geom(f: real, b: real, v: real, e: real, R: real,
                       sinAlpha: real, cosAlpha: real, cosBeta: real)

  datatype Surface = Primary | Secondary | SphGrating | TorGrating | FocalPlane | SpectralFocus

  type SquareRoot = real -> real

  ghost predicate Exact(sqrt: SquareRoot) {
    forall x: real :: x >= 0.0 ==> sqrt(x) >= 0.0 && sqrt(x) * sqrt(x) == x
  }

  // ---- Vector algebra ------------------------------------------------------------------

  function Dot(a: Vec, b: Vec): real { Times(a.x, b.x) + Times(a.y, b.y) + Times(a.z, b.z) }

  function Cross(a: Vec, b: Vec): Vec {
    Vec(Times(a.y, b.z) - Times(a.z, b.y), Times(a.z, b.x) - Times(a.x, b.z), Times(a.x, b.y) - Times(a.y, b.x))
  }

  function Add(a: Vec, b: Vec): Vec { Vec(a.x + b.x, a.y + b.y, a.z + b.z) }

  function Minus(a: Vec, b: Vec): Vec { Vec(a.x - b.x, a.y - b.y, a.z - b.z) }

  function Scale(k: real, a: Vec): Vec { Vec(Times(k, a.x), Times(k, a.y), Times(k, a.z)) }

  function Neg(a: Vec): Vec { Vec(-a.x, -a.y, -a.z) }

  predicate Unit(a: Vec) { Dot(a, a) == 1.0 }

  function Norm(sqrt: SquareRoot, a: Vec): real { sqrt(Dot(a, a)) }

  /** The law of reflection: keep the tangential part, reverse the normal part. */
  function Mirror(u: Vec, n: Vec): Vec { Add(u, Scale(-2.0 * Dot(u, n), n)) }

  // ---- Surfaces ------------------------------------------------------------------------

  /** The telescope is a confocal Cassegrain: a parabola and one sheet of a hyperbola. */
  predicate Cassegrain(g: Geom) { g.f > 0.0 && g.f + g.b > 0.0 && g.e > 1.0 }

  function PrimaryZ(x: real, y: real, g: Geom): real
    requires g.f != 0.0
  {
    (x * x + y * y) / (4.0 * g.f) - g.v
  }

  /** The squared height above its centre of a hyperbola with eccentricity e and focal
      separation c. */
  function HyperbolaHeight2(x: real, y: real, e: real, c: real): real
    requires e > 1.0
  {
    (x * x + y * y) / (e * e - 1.0) + c * c / (4.0 * e * e)
  }

  /** `xyfact` in raytrace_get_n. */
  function SecondaryXY(x: real, y: real, g: Geom): real
    requires g.e > 1.0
  {
    HyperbolaHeight2(x, y, g.e, g.f + g.b)
  }

  function SecondaryCentre(g: Geom): real { -(g.v - g.f / 2.0 + g.b / 2.0) }

  function SecondaryZ(sqrt: SquareRoot, x: real, y: real, g: Geom): real
    requires g.e > 1.0
  {
    sqrt(SecondaryXY(x, y, g)) + SecondaryCentre(g)
  }

  function FocalPlaneZ(g: Geom): real { -(g.v + g.b) }

  /** Centre of curvature shared by both gratings. */
  function GratingCentre(g: Geom): Vec { Vec(-g.R * g.sinAlpha, 0.0, -(g.v + g.b)) }

  function SphGratingZ(sqrt: SquareRoot, x: real, y: real, g: Geom): real {
    var c := GratingCentre(g);
    c.z - sqrt(Times(g.R, g.R) - Times(x - c.x, x - c.x) - Times(y - c.y, y - c.y))
  }

  function TorusMajor(g: Geom): real { g.R * (1.0 - g.cosAlpha * g.cosBeta) }

  function TorusMinor(g: Geom): real { g.R * g.cosAlpha * g.cosBeta }

  /** Radius of the torus section in the plane at height y. */
  function TorusRadius(sqrt: SquareRoot, y: real, g: Geom): real {
    var c := GratingCentre(g);
    TorusMajor(g) + sqrt(Times(TorusMinor(g), TorusMinor(g)) - Times(y - c.y, y - c.y))
  }

  function TorGratingZ(sqrt: SquareRoot, x: real, y: real, g: Geom): real {
    var c := GratingCentre(g);
    var radius := TorusRadius(sqrt, y, g);
    c.z - sqrt(Times(radius, radius) - Times(x - c.x, x - c.x))
  }

  /** Centre of the circle on which the detector lies; its radius is R / 2. */
  function DetectorCentre(g: Geom): Vec {
    Vec(-(g.R / 2.0) * g.sinAlpha, 0.0, -(g.v + g.b) - (g.R / 2.0) * g.cosAlpha)
  }

  /** The squared height of the detector above its centre. */
  function DetectorHeight2(x: real, g: Geom): real {
    var c := DetectorCentre(g);
    Times(g.R / 2.0, g.R / 2.0) - Times(x - c.x, x - c.x)
  }

  function DetectorZ(sqrt: SquareRoot, x: real, y: real, g: Geom): real {
    DetectorCentre(g).z + sqrt(DetectorHeight2(x, g))
  }

  function SurfaceZ(sqrt: SquareRoot, x: real, y: real, g: Geom, surf: Surface): real
    requires Cassegrain(g)
  {
    match surf
    case Primary => PrimaryZ(x, y, g)
    case Secondary => SecondaryZ(sqrt, x, y, g)
    case FocalPlane => FocalPlaneZ(g)
    case SphGrating => SphGratingZ(sqrt, x, y, g)
    case TorGrating => TorGratingZ(sqrt, x, y, g)
    case SpectralFocus => DetectorZ(sqrt, x, y, g)
  }

  /** raytrace_distroot: zero exactly when the ray, advanced by t, is on the surface. */
  function DistRoot(sqrt: SquareRoot, t: real, r: Ray, g: Geom, surf: Surface): real
    requires Cassegrain(g)
  {
    r.z + Times(t, r.vz) - SurfaceZ(sqrt, r.x + Times(t, r.vx), r.y + Times(t, r.vy), g, surf)
  }

  function Advanced(r: Ray, d: real): Ray {
    r.(x := r.x + Times(d, r.vx), y := r.y + Times(d, r.vy), z := r.z + Times(d, r.vz))
  }

  // ---- Normals and reflection ----------------------------------------------------------

  lemma RootSquared(sqrt: SquareRoot, x: real)
    requires Exact(sqrt) && x >= 0.0
    ensures sqrt(x) >= 0.0 && Times(sqrt(x), sqrt(x)) == x
  {
    assert sqrt(x) * sqrt(x) == x;
  }

  lemma RootPositive(sqrt: SquareRoot, x: real)
    requires Exact(sqrt) && x > 0.0
    ensures sqrt(x) > 0.0 && Times(sqrt(x), sqrt(x)) == x
  {
    assert sqrt(x) * sqrt(x) == x;
  }

  function PrimaryNorm2(x: real, y: real, f: real): (n2: real)
    requires f > 0.0
    ensures n2 > 0.0
  {
    SquareNonNeg(x);
    SquareNonNeg(y);
    TimesPos(f, f);
    x * x + y * y + 4.0 * f * f
  }

  function PrimaryNormal(sqrt: SquareRoot, p: Vec, g: Geom): Vec
    requires Exact(sqrt) && g.f > 0.0
  {
    var norm := sqrt(PrimaryNorm2(p.x, p.y, g.f));
    RootPositive(sqrt, PrimaryNorm2(p.x, p.y, g.f));
    Vec(-p.x / norm, -p.y / norm, 2.0 * g.f / norm)
  }

  lemma HyperbolaHeightPositive(x: real, y: real, e: real, c: real)
    requires e > 1.0 && c > 0.0
    ensures HyperbolaHeight2(x, y, e, c) > 0.0
  {
    SquareNonNeg(x);
    SquareNonNeg(y);
    TimesPos(c, c);
    TimesPos(e, e);
    TimesPos(e - 1.0, e + 1.0);
    DivNonNeg(x * x + y * y, e * e - 1.0);
    DivPos(c * c, 4.0 * e * e);
  }

  /** `esm1`. */
  function Esm1(e: real): (r: real)
    ensures e > 1.0 ==> r > 0.0
  {
    if e > 1.0 then TimesPos(e - 1.0, e + 1.0); e * e - 1.0 else e * e - 1.0
  }

  function SecondaryNorm2(x: real, y: real, esm1: real, xyfact: real): (n2: real)
    requires esm1 > 0.0 && xyfact > 0.0
    ensures n2 > 0.0
  {
    TimesPos(esm1, esm1);
    SquareNonNeg(x);
    SquareNonNeg(y);
    DivNonNeg(x * x + y * y, xyfact);
    esm1 * esm1 + (x * x + y * y) / xyfact
  }

  function SecondaryNormal(sqrt: SquareRoot, p: Vec, g: Geom): Vec
    requires Exact(sqrt) && Cassegrain(g)
  {
    var esm1 := Esm1(g.e);
    var xyfact := SecondaryXY(p.x, p.y, g);
    HyperbolaHeightPositive(p.x, p.y, g.e, g.f + g.b);
    RootPositive(sqrt, xyfact);
    var norm := sqrt(SecondaryNorm2(p.x, p.y, esm1, xyfact));
    RootPositive(sqrt, SecondaryNorm2(p.x, p.y, esm1, xyfact));
    Vec(-p.x / sqrt(xyfact) / norm, -p.y / sqrt(xyfact) / norm, esm1 / norm)
  }

  /** raytrace_reflect, in the order the program computes it. */
  function Reflected(v: Vec, n: Vec): Vec
    requires n.z != 0.0
  {
    var zap := (n.x * n.x + n.y * n.y - n.z * n.z) * v.z - 2.0 * n.x * n.z * v.x - 2.0 * n.y * n.z * v.y;
    var yap := v.y + Times(n.y / n.z, zap - v.z);
    var xap := v.x + Times(n.x / n.z, zap - v.z);
    Vec(xap, yap, zap)
  }

  lemma RatioTimes(a: real, c: real, k: real, d: real)
    requires c != 0.0 && d == Times(k, c)
    ensures Times(a / c, d) == Times(k, a)
  {
    DivTimes(a, c);
    calc {
      Times(a / c, d);
      Times(a / c, Times(k, c));
      Times(k, Times(a / c, c));
      Times(k, a);
    }
  }

  lemma ReflectedHeight(v: Vec, n: Vec)
    requires Unit(n) && n.z != 0.0
    ensures Reflected(v, n).z - v.z == Times(-2.0 * Dot(v, n), n.z)
  {
    TimesOne(Dot(n, n), v.z);
    assert Reflected(v, n).z - v.z == Times(Dot(n, n), v.z) - v.z + Times(-2.0 * Dot(v, n), n.z);
  }

  /** The z-first formulas of raytrace_reflect are the law of reflection, for unit normals
      that are not horizontal. */
  lemma ReflectedIsMirror(v: Vec, n: Vec)
    requires Unit(n) && n.z != 0.0
    ensures Reflected(v, n) == Mirror(v, n)
  {
    var r := Reflected(v, n);
    var k := -2.0 * Dot(v, n);
    ReflectedHeight(v, n);
    RatioTimes(n.x, n.z, k, r.z - v.z);
    RatioTimes(n.y, n.z, k, r.z - v.z);
  }

  lemma MirrorKeepsLength(u: Vec, n: Vec)
    requires Unit(n)
    ensures Dot(Mirror(u, n), Mirror(u, n)) == Dot(u, u)
    ensures Dot(Mirror(u, n), n) == -Dot(u, n)
  {
    var k, m := Dot(u, n), Mirror(u, n);
    var c := -2.0 * k;
    AddScaleDot(u, c, n, n);
    AddScaleDot(u, c, n, u);
    AddScaleDot(u, c, n, m);
    DotSwaps(n, u);
    DotSwaps(n, m);
    DotSwaps(u, m);
    MirrorLength(k, c, Dot(n, n), Dot(u, u), Dot(m, n), Dot(m, u), Dot(m, m));
  }

  lemma AddScaleDot(u: Vec, c: real, n: Vec, q: Vec)
    ensures Dot(Add(u, Scale(c, n)), q) == Dot(u, q) + Times(c, Dot(n, q))
  {}

  lemma DotSwaps(u: Vec, n: Vec)
    ensures Dot(u, n) == Dot(n, u)
  {}

  lemma MirrorLength(k: real, c: real, nn: real, uu: real, mn: real, mu: real, mm: real)
    requires c == -2.0 * k && nn == 1.0 && mn == k + Times(c, nn) && mu == uu + Times(c, k) && mm == mu + Times(c, mn)
    ensures mn == -k && mm == uu
  {}

  /** n is the vector w scaled to length 1 by its length m. */
  predicate Normalised(n: Vec, w: Vec, m: real) {
    m > 0.0 && Times(m, m) == Dot(w, w) && Scale(m, n) == w
  }

  lemma NormalisedMirror(u: Vec, n: Vec, w: Vec, m: real)
    requires Normalised(n, w, m)
    ensures Unit(n)
    ensures Scale(Dot(w, w), Mirror(u, n)) == Add(Scale(Dot(w, w), u), Scale(-2.0 * Dot(u, w), w))
  {
    calc {
      Times(Times(m, m), Dot(n, n));
      Dot(Scale(m, n), Scale(m, n));
      Times(m, m);
      Times(Times(m, m), 1.0);
    }
    TimesPos(m, m);
    Cancel(Times(m, m), Dot(n, n), 1.0);
    var k := Dot(u, n);
    assert Times(m, k) == Dot(u, w) by {
      assert Times(m, k) == Dot(u, Scale(m, n));
    }
    MirrorComponent(m, k, Dot(u, w), u.x, n.x, w.x, Dot(w, w));
    MirrorComponent(m, k, Dot(u, w), u.y, n.y, w.y, Dot(w, w));
    MirrorComponent(m, k, Dot(u, w), u.z, n.z, w.z, Dot(w, w));
    MirrorCoordinates(u, n);
    var t := -2.0 * Dot(u, w);
    assert forall q: real :: Times(t, q) == -2.0 * Times(Dot(u, w), q);
  }

  lemma MirrorCoordinates(u: Vec, n: Vec)
    ensures var k := Dot(u, n);
            Mirror(u, n) == Vec(u.x - 2.0 * Times(k, n.x), u.y - 2.0 * Times(k, n.y), u.z - 2.0 * Times(k, n.z))
  {}

  lemma MirrorComponent(m: real, k: real, uw: real, u: real, n: real, w: real, ww: real)
    requires Times(m, k) == uw && Times(m, n) == w && Times(m, m) == ww
    ensures Times(ww, u - 2.0 * Times(k, n)) == Times(ww, u) - 2.0 * Times(uw, w)
  {
    assert Times(Times(m, m), u - 2.0 * Times(k, n))
        == Times(Times(m, m), u) - 2.0 * Times(Times(m, k), Times(m, n));
  }

  lemma PrimaryNormalised(sqrt: SquareRoot, p: Vec, g: Geom) returns (m: real)
    requires Exact(sqrt) && g.f > 0.0
    ensures Normalised(PrimaryNormal(sqrt, p, g), Vec(-p.x, -p.y, 2.0 * g.f), m)
    ensures PrimaryNormal(sqrt, p, g).z > 0.0
  {
    RootPositive(sqrt, PrimaryNorm2(p.x, p.y, g.f));
    m := sqrt(PrimaryNorm2(p.x, p.y, g.f));
    DivTimes(-p.x, m);
    DivTimes(-p.y, m);
    DivTimes(2.0 * g.f, m);
    DivPos(2.0 * g.f, m);
  }

  lemma DivTwice(a: real, s: real, t: real, m: real)
    requires s != 0.0 && t != 0.0 && m == Times(t, s)
    ensures Times(m, a / s / t) == a
  {
    DivTimes(a / s, t);
    DivTimes(a, s);
    assert Times(Times(t, s), a / s / t) == Times(Times(a / s / t, t), s);
  }

  lemma SecondaryNormSquared(norm: real, w: real, x: real, y: real, esm1: real, xyfact: real)
    requires esm1 > 0.0 && xyfact > 0.0
    requires Times(norm, norm) == SecondaryNorm2(x, y, esm1, xyfact) && Times(w, w) == xyfact
    ensures Times(Times(norm, w), Times(norm, w)) == Times(Times(esm1, w), Times(esm1, w)) + Times(x, x) + Times(y, y)
  {
    var q := (x * x + y * y) / xyfact;
    DivTimes(x * x + y * y, xyfact);
    calc {
      Times(Times(norm, w), Times(norm, w));
      Times(Times(norm, norm), Times(w, w));
      Times(esm1 * esm1 + q, xyfact);
      Times(Times(esm1, esm1), xyfact) + Times(q, xyfact);
      Times(Times(esm1, esm1), Times(w, w)) + Times(x, x) + Times(y, y);
      Times(Times(esm1, w), Times(esm1, w)) + Times(x, x) + Times(y, y);
    }
  }

  lemma SecondaryNormalised(sqrt: SquareRoot, p: Vec, g: Geom) returns (m: real)
    requires Exact(sqrt) && Cassegrain(g)
    ensures var w := sqrt(SecondaryXY(p.x, p.y, g));
            w > 0.0 && Normalised(SecondaryNormal(sqrt, p, g), Vec(-p.x, -p.y, Times(Esm1(g.e), w)), m)
    ensures SecondaryNormal(sqrt, p, g).z > 0.0
  {
    var esm1 := Esm1(g.e);
    var xyfact := SecondaryXY(p.x, p.y, g);
    HyperbolaHeightPositive(p.x, p.y, g.e, g.f + g.b);
    RootPositive(sqrt, xyfact);
    RootPositive(sqrt, SecondaryNorm2(p.x, p.y, esm1, xyfact));
    var w := sqrt(xyfact);
    var norm := sqrt(SecondaryNorm2(p.x, p.y, esm1, xyfact));
    m := Times(norm, w);
    TimesPos(norm, w);
    SecondaryNormSquared(norm, w, p.x, p.y, esm1, xyfact);
    NegTimes(p.x, p.x);
    NegTimes(p.y, p.y);
    DivTwice(-p.x, w, norm, m);
    DivTwice(-p.y, w, norm, m);
    DivTimes(esm1, norm);
    DivPos(esm1, norm);
    TurnProduct(norm, w, esm1 / norm);
  }

  lemma TurnProduct(x: real, y: real, z: real)
    ensures Times(Times(x, y), z) == Times(Times(z, x), y)
  {}
}
