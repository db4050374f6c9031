/** The two-mirror telescope as a whole: a ray parallel to the axis is imaged exactly on the
    axis, and all such rays travel the same distance. */
module CassegrainTelescope {
  import opened RealArith
  import opened Optics

  /** Travelling the distance d from p in the direction u leads exactly to the point q. */
  predicate Aimed(p: Vec, u: Vec, q: Vec, d: real) {
    Unit(u) && Scale(d, u) == Minus(q, p)
  }

  function PrimaryFocus(g: Geom): Vec { Vec(0.0, 0.0, g.f - g.v) }

  function SystemFocus(g: Geom): Vec { Vec(0.0, 0.0, -(g.v + g.b)) }

  /** Distance from the point of the paraboloid above (x, y) to its focus. */
  function FocalDistance(x: real, y: real, f: real): real
    requires f != 0.0
  {
    (x * x + y * y) / (4.0 * f) + f
  }

  function Bounce(r: Ray, n: Vec): Ray
    requires n.z != 0.0
  {
    r.Towards(Reflected(r.Vel(), n))
  }

  lemma AimedAdvance(r: Ray, q: Vec, d: real, t: real)
    requires Aimed(r.Pos(), r.Vel(), q, d)
    ensures Aimed(Advanced(r, t).Pos(), r.Vel(), q, d - t)
  {
    assert forall k: real :: Times(d - t, k) == Times(d, k) - Times(t, k);
  }

  lemma AimedDistance(p: Vec, u: Vec, q: Vec, d: real)
    requires Aimed(p, u, q, d)
    ensures Times(d, d) == Dot(Minus(q, p), Minus(q, p))
  {
    calc {
      Dot(Scale(d, u), Scale(d, u));
      Times(Times(d, d), Dot(u, u));
      Times(d, d);
    }
  }

  // ---- Primary mirror ------------------------------------------------------------------

  lemma PrimaryAim(x: real, y: real, f: real, rho: real, w2: real, m: Vec)
    requires f > 0.0 && rho == FocalDistance(x, y, f) && w2 == x * x + y * y + 4.0 * f * f
    requires Times(w2, m.x) == -4.0 * Times(f, x)
    requires Times(w2, m.y) == -4.0 * Times(f, y)
    requires Times(w2, m.z) == 8.0 * Times(f, f) - w2
    ensures Times(rho, m.x) == -x && Times(rho, m.y) == -y && Times(rho, m.z) == 2.0 * f - rho
  {
    DivTimes(x * x + y * y, 4.0 * f);
    var q := (x * x + y * y) / (4.0 * f);
    assert Times(4.0 * f, rho) == w2 by {
      assert Times(4.0 * f, q + f) == Times(q, 4.0 * f) + 4.0 * Times(f, f);
    }
    forall k: real
      ensures Times(4.0 * f, Times(rho, k)) == Times(w2, k)
    {
      assert Times(4.0 * f, Times(rho, k)) == Times(Times(4.0 * f, rho), k);
    }
    assert Times(4.0 * f, -x) == -4.0 * Times(f, x);
    assert Times(4.0 * f, -y) == -4.0 * Times(f, y);
    Cancel(4.0 * f, Times(rho, m.x), -x);
    Cancel(4.0 * f, Times(rho, m.y), -y);
    assert Times(4.0 * f, 2.0 * f - rho) == 8.0 * Times(f, f) - Times(4.0 * f, rho);
    Cancel(4.0 * f, Times(rho, m.z), 2.0 * f - rho);
  }

  /** A paraboloid sends every ray parallel to its axis to its focus. */
  lemma PrimaryFocuses(sqrt: SquareRoot, r: Ray, g: Geom)
    requires Exact(sqrt) && Cassegrain(g)
    requires r.Vel() == Vec(0.0, 0.0, -1.0) && r.z == PrimaryZ(r.x, r.y, g)
    ensures PrimaryNormal(sqrt, r.Pos(), g).z > 0.0
    ensures Aimed(r.Pos(), Bounce(r, PrimaryNormal(sqrt, r.Pos(), g)).Vel(), PrimaryFocus(g),
                  FocalDistance(r.x, r.y, g.f))
  {
    var p, u := r.Pos(), r.Vel();
    var n := PrimaryNormal(sqrt, p, g);
    var w := Vec(-p.x, -p.y, 2.0 * g.f);
    var k := PrimaryNormalised(sqrt, p, g);
    NormalisedMirror(u, n, w, k);
    ReflectedIsMirror(u, n);
    MirrorKeepsLength(u, n);
    var m := Mirror(u, n);
    PrimaryMirrorImage(p.x, p.y, g.f, u, w, m);
    PrimaryAim(p.x, p.y, g.f, FocalDistance(p.x, p.y, g.f), Dot(w, w), m);
    FocusHeight(p.x, p.y, g);
  }

  lemma FocusHeight(x: real, y: real, g: Geom)
    requires Cassegrain(g)
    ensures 2.0 * g.f - FocalDistance(x, y, g.f) == PrimaryFocus(g).z - PrimaryZ(x, y, g)
  {}

  lemma PrimaryMirrorImage(x: real, y: real, f: real, u: Vec, w: Vec, m: Vec)
    requires u == Vec(0.0, 0.0, -1.0) && w == Vec(-x, -y, 2.0 * f)
    requires Scale(Dot(w, w), m) == Add(Scale(Dot(w, w), u), Scale(-2.0 * Dot(u, w), w))
    ensures Dot(w, w) == x * x + y * y + 4.0 * f * f
    ensures Times(Dot(w, w), m.x) == -4.0 * Times(f, x)
    ensures Times(Dot(w, w), m.y) == -4.0 * Times(f, y)
    ensures Times(Dot(w, w), m.z) == 8.0 * Times(f, f) - Dot(w, w)
  {
    assert Times(-x, -x) == x * x && Times(-y, -y) == y * y && Times(2.0 * f, 2.0 * f) == 4.0 * f * f;
    assert Dot(u, w) == -2.0 * f;
    assert Times(4.0 * f, -x) == -4.0 * Times(f, x);
    assert Times(4.0 * f, -y) == -4.0 * Times(f, y);
    assert Times(4.0 * f, 2.0 * f) == 8.0 * Times(f, f);
    assert Times(Dot(w, w), -1.0) == -Dot(w, w);
  }

  // ---- Secondary mirror ----------------------------------------------------------------

  /** The hyperbola without division: e its eccentricity, a its semi-axis, w the height of
      (x, y, w) above the centre. */
  predicate OnHyperbola(x: real, y: real, w: real, e: real, a: real) {
    && e > 1.0 && a > 0.0 && w >= 0.0
    && Times(Esm1(e), Times(w, w)) == Times(x, x) + Times(y, y) + Times(Esm1(e), Times(a, a))
  }

  /** The squared height without division. */
  lemma HeightTimes(x: real, y: real, e: real, c: real, a: real)
    requires e > 1.0 && c > 0.0 && a == c / (2.0 * e)
    ensures a > 0.0 && Times(2.0 * a, e) == c
    ensures Times(Esm1(e), HyperbolaHeight2(x, y, e, c)) == Times(x, x) + Times(y, y) + Times(Esm1(e), Times(a, a))
  {
    DivPos(c, 2.0 * e);
    DivTimes(c, 2.0 * e);
    assert Times(2.0 * a, e) == Times(a, 2.0 * e);
    var h := c * c / (4.0 * e * e);
    TimesPos(e, e);
    DivTimes(c * c, 4.0 * e * e);
    assert Times(4.0 * e * e, Times(a, a)) == Times(Times(2.0 * a, e), Times(2.0 * a, e));
    assert Times(4.0 * e * e, h) == Times(h, 4.0 * e * e);
    Cancel(4.0 * e * e, h, Times(a, a));
    var q := (x * x + y * y) / (e * e - 1.0);
    assert Esm1(e) == e * e - 1.0;
    DivTimes(x * x + y * y, e * e - 1.0);
    calc {
      Times(Esm1(e), q + Times(a, a));
      Times(q, Esm1(e)) + Times(Esm1(e), Times(a, a));
    }
  }

  lemma HyperbolaPoint(x: real, y: real, w: real, e: real, c: real, a: real)
    requires e > 1.0 && c > 0.0 && a == c / (2.0 * e) && w >= 0.0
    ensures Times(w, w) == HyperbolaHeight2(x, y, e, c) <==> OnHyperbola(x, y, w, e, a)
    ensures Times(2.0 * a, e) == c
  {
    HeightTimes(x, y, e, c, a);
    if OnHyperbola(x, y, w, e, a) {
      Cancel(Esm1(e), Times(w, w), HyperbolaHeight2(x, y, e, c));
    }
  }

  lemma HyperbolaAboveVertex(x: real, y: real, w: real, e: real, a: real)
    requires OnHyperbola(x, y, w, e, a)
    ensures w >= a && Times(e, w) - a > 0.0
  {
    SquareNonNeg(x);
    SquareNonNeg(y);
    if w < a {
      TimesPos(a - w, a + w);
      TimesPos(Esm1(e), Times(a - w, a + w));
      SquareDifference(Esm1(e), a, w);
      assert false;
    }
    TimesPos(e - 1.0, w);
    LessOne(e, w);
  }

  lemma SquareDifference(k: real, a: real, w: real)
    ensures Times(k, Times(a - w, a + w)) == Times(k, Times(a, a)) - Times(k, Times(w, w))
  {
    assert Times(a - w, a + w) == Times(a, a) - Times(w, w);
    TimesSum(k, Times(a, a), Times(w, w));
  }

  lemma LessOne(e: real, w: real)
    ensures Times(e - 1.0, w) == Times(e, w) - w
  {}

  /** The focal property: a point of the sheet at height w is at distance e*w - a from the near
      focus, which is at height a*e. */
  lemma NearFocusDistance(x: real, y: real, w: real, e: real, a: real, d: real)
    requires OnHyperbola(x, y, w, e, a)
    requires d > 0.0 && Times(d, d) == Times(x, x) + Times(y, y) + Times(Times(a, e) - w, Times(a, e) - w)
    ensures d == Times(e, w) - a
  {
    HyperbolaAboveVertex(x, y, w, e, a);
    var s := Times(e, w) - a;
    assert Times(s, s) == Times(Esm1(e), Times(w, w)) - Times(Esm1(e), Times(a, a))
                          + Times(Times(a, e) - w, Times(a, e) - w) by {
      FocalIdentity(w, e, a);
    }
    SquaresEqual(d, s);
  }

  lemma FocalIdentity(w: real, e: real, a: real)
    ensures Times(Times(e, w) - a, Times(e, w) - a)
         == Times(Esm1(e), Times(w, w)) - Times(Esm1(e), Times(a, a)) + Times(Times(a, e) - w, Times(a, e) - w)
  {}

  /** The direction d2 * m after the bounce points from (x, y, w) to the far focus, at height -a*e. */
  lemma SecondaryAim(x: real, y: real, w: real, e: real, a: real, d1: real, u: Vec, n: Vec, m: Vec)
    requires OnHyperbola(x, y, w, e, a)
    requires d1 == Times(e, w) - a && d1 > 0.0
    requires Scale(d1, u) == Vec(-x, -y, Times(a, e) - w) && n == Vec(-x, -y, Times(Esm1(e), w))
    requires Scale(Dot(n, n), m) == Add(Scale(Dot(n, n), u), Scale(-2.0 * Dot(u, n), n))
    ensures Scale(d1 + 2.0 * a, m) == Vec(-x, -y, -Times(a, e) - w)
  {
    var k, d2 := Esm1(e), d1 + 2.0 * a;
    assert Times(-x, -x) == Times(x, x) && Times(-y, -y) == Times(y, y);
    SecondaryNormIdentity(w, e, a, d1);
    assert Dot(u, n) == Times(k, a) by {
      calc {
        Times(d1, Dot(u, n));
        { ScaleDot(d1, u, n); }
        Dot(Scale(d1, u), n);
        Times(k, Times(w, w)) - Times(k, Times(a, a)) + Times(Times(a, e) - w, Times(k, w));
        { SecondaryDotIdentity(w, e, a); }
        Times(Times(k, a), Times(e, w) - a);
        Times(d1, Times(k, a));
      }
      Cancel(d1, Dot(u, n), Times(k, a));
    }
    var t := -2.0 * Dot(u, n);
    assert forall q: real :: Times(t, q) == -2.0 * Times(Dot(u, n), q);
    SecondaryComponent(k, a, d1, u.x, n.x, m.x, -x, Dot(n, n), Dot(u, n));
    SecondaryComponent(k, a, d1, u.y, n.y, m.y, -y, Dot(n, n), Dot(u, n));
    SecondaryComponent(k, a, d1, u.z, n.z, m.z, Times(a, e) - w, Dot(n, n), Dot(u, n));
    assert forall q: real :: Times(d2, q) - 2.0 * Times(a, q) == Times(d1, q);
    Cancel(d1, Times(d2, m.x), -x);
    Cancel(d1, Times(d2, m.y), -y);
    SecondaryAxialIdentity(w, e, a, d1);
    Cancel(d1, Times(d2, m.z), -Times(a, e) - w);
  }

  lemma ScaleDot(d: real, u: Vec, n: Vec)
    ensures Times(d, Dot(u, n)) == Dot(Scale(d, u), n)
  {}

  lemma SecondaryAxialIdentity(w: real, e: real, a: real, d1: real)
    requires d1 == Times(e, w) - a
    ensures Times(d1 + 2.0 * a, Times(a, e) - w) - 2.0 * Times(a, Times(Esm1(e), w)) == Times(d1, -Times(a, e) - w)
  {
    AxialPolynomial(w, e, a);
    assert Esm1(e) == e * e - 1.0;
  }

  lemma AxialPolynomial(w: real, e: real, a: real)
    ensures Times(e * w - a + 2.0 * a, a * e - w) - 2.0 * (a * ((e * e - 1.0) * w)) == Times(e * w - a, -(a * e) - w)
  {}

  lemma SecondaryNormIdentity(w: real, e: real, a: real, d1: real)
    requires d1 == Times(e, w) - a
    ensures Times(Times(Esm1(e), d1), d1 + 2.0 * a)
         == Times(Esm1(e), Times(w, w)) - Times(Esm1(e), Times(a, a)) + Times(Times(Esm1(e), w), Times(Esm1(e), w))
  {
    var s := Times(e, w) - a;
    assert Times(Times(Esm1(e), s), s + 2.0 * a)
        == Times(Esm1(e), Times(w, w)) - Times(Esm1(e), Times(a, a)) + Times(Times(Esm1(e), w), Times(Esm1(e), w));
  }

  lemma SecondaryDotIdentity(w: real, e: real, a: real)
    ensures Times(Esm1(e), Times(w, w)) - Times(Esm1(e), Times(a, a)) + Times(Times(a, e) - w, Times(Esm1(e), w))
         == Times(Times(Esm1(e), a), Times(e, w) - a)
  {}

  lemma SecondaryComponent(k: real, a: real, d1: real, u: real, n: real, m: real, p: real, nn: real, un: real)
    requires k > 0.0 && nn == Times(Times(k, d1), d1 + 2.0 * a) && un == Times(k, a)
    requires Times(nn, m) == Times(nn, u) - 2.0 * Times(un, n) && Times(d1, u) == p
    ensures Times(d1, Times(d1 + 2.0 * a, m)) == Times(d1 + 2.0 * a, p) - 2.0 * Times(a, n)
  {
    var d2 := d1 + 2.0 * a;
    calc {
      Times(k, Times(d1, Times(d2, m)));
      Times(Times(Times(k, d1), d2), m);
      Times(Times(Times(k, d1), d2), u) - 2.0 * Times(Times(k, a), n);
      Times(k, Times(d2, Times(d1, u)) - 2.0 * Times(a, n));
    }
    Cancel(k, Times(d1, Times(d2, m)), Times(d2, Times(d1, u)) - 2.0 * Times(a, n));
  }

  /** The hyperboloid sends a ray that is heading for its near focus to its far focus; the
      distances to the two foci differ by 2*a. */
  lemma SecondaryRefocuses(sqrt: SquareRoot, r: Ray, g: Geom, d1: real)
    requires Exact(sqrt) && Cassegrain(g)
    requires r.z == SecondaryZ(sqrt, r.x, r.y, g)
    requires d1 > 0.0 && Aimed(r.Pos(), r.Vel(), PrimaryFocus(g), d1)
    ensures SecondaryNormal(sqrt, r.Pos(), g).z > 0.0
    ensures Aimed(r.Pos(), Bounce(r, SecondaryNormal(sqrt, r.Pos(), g)).Vel(), SystemFocus(g),
                  d1 + (g.f + g.b) / g.e)
    ensures r.z > SystemFocus(g).z
  {
    var p, u, c := r.Pos(), r.Vel(), g.f + g.b;
    var a := c / (2.0 * g.e);
    var w := sqrt(SecondaryXY(p.x, p.y, g));
    HyperbolaHeightPositive(p.x, p.y, g.e, c);
    RootPositive(sqrt, SecondaryXY(p.x, p.y, g));
    HyperbolaPoint(p.x, p.y, w, g.e, c, a);
    FociFromPoint(p, w, g, a);
    NearFocus(p, u, w, g, a, d1);
    var n := SecondaryNormal(sqrt, p, g);
    var m := SecondaryNormalised(sqrt, p, g);
    SecondaryBounce(p, u, w, g.e, a, d1, n, m);
    ReflectedIsMirror(u, n);
    HalfQuotient(c, g.e);
    FarFocusBelow(w, g, a);
  }

  /** The foci as seen from a point of the sheet. */
  lemma FociFromPoint(p: Vec, w: real, g: Geom, a: real)
    requires p.z == w + SecondaryCentre(g) && Times(2.0 * a, g.e) == g.f + g.b
    ensures Minus(PrimaryFocus(g), p) == Vec(-p.x, -p.y, Times(a, g.e) - w)
    ensures Minus(SystemFocus(g), p) == Vec(-p.x, -p.y, -Times(a, g.e) - w)
  {
    assert Times(2.0 * a, g.e) == 2.0 * Times(a, g.e);
  }

  lemma FarFocusBelow(w: real, g: Geom, a: real)
    requires g.e > 1.0 && a > 0.0 && w >= 0.0 && Times(2.0 * a, g.e) == g.f + g.b
    ensures w + SecondaryCentre(g) > SystemFocus(g).z
  {
    assert Times(2.0 * a, g.e) == 2.0 * Times(a, g.e);
    TimesPos(a, g.e);
  }

  lemma NearFocus(p: Vec, u: Vec, w: real, g: Geom, a: real, d1: real)
    requires OnHyperbola(p.x, p.y, w, g.e, a) && d1 > 0.0 && Aimed(p, u, PrimaryFocus(g), d1)
    requires Minus(PrimaryFocus(g), p) == Vec(-p.x, -p.y, Times(a, g.e) - w)
    ensures d1 == Times(g.e, w) - a && Scale(d1, u) == Vec(-p.x, -p.y, Times(a, g.e) - w)
  {
    AimedDistance(p, u, PrimaryFocus(g), d1);
    assert Times(-p.x, -p.x) == Times(p.x, p.x) && Times(-p.y, -p.y) == Times(p.y, p.y);
    NearFocusDistance(p.x, p.y, w, g.e, a, d1);
  }

  lemma SecondaryBounce(p: Vec, u: Vec, w: real, e: real, a: real, d1: real, n: Vec, m: real)
    requires OnHyperbola(p.x, p.y, w, e, a) && d1 > 0.0 && d1 == Times(e, w) - a && Unit(u)
    requires Scale(d1, u) == Vec(-p.x, -p.y, Times(a, e) - w)
    requires Normalised(n, Vec(-p.x, -p.y, Times(Esm1(e), w)), m)
    ensures Unit(n) && Unit(Mirror(u, n)) && Scale(d1 + 2.0 * a, Mirror(u, n)) == Vec(-p.x, -p.y, -Times(a, e) - w)
  {
    var h := Vec(-p.x, -p.y, Times(Esm1(e), w));
    NormalisedMirror(u, n, h, m);
    MirrorKeepsLength(u, n);
    SecondaryAim(p.x, p.y, w, e, a, d1, u, h, Mirror(u, n));
  }

  lemma HalfQuotient(c: real, e: real)
    requires e != 0.0
    ensures 2.0 * (c / (2.0 * e)) == c / e
  {
    DivTimes(c, e);
    DivTimes(c, 2.0 * e);
    var q, h := c / e, c / (2.0 * e);
    assert Times(e, 2.0 * h) == Times(h, 2.0 * e);
    assert Times(e, q) == Times(q, e);
    Cancel(e, 2.0 * h, q);
  }

  /** A ray aimed at a point of the plane z == q.z reaches the plane only there. */
  lemma PlaneHit(r: Ray, q: Vec, d: real, t: real)
    requires Aimed(r.Pos(), r.Vel(), q, d) && r.z != q.z
    requires r.z + Times(t, r.vz) == q.z
    ensures t == d && Advanced(r, t).Pos() == q
  {
    assert Times(d, r.vz) == q.z - r.z;
    assert r.vz != 0.0;
    assert Times(r.vz, t) == Times(t, r.vz) && Times(r.vz, d) == Times(d, r.vz);
    Cancel(r.vz, t, d);
  }

  // ---- The root on the secondary ---------------------------------------------------------

  /** A point at height h above the centre that is the distance s before the near focus, on a line
      that rises by uz, is on the sheet exactly if its focal distance says so. */
  lemma SheetPoint(x: real, y: real, h: real, e: real, a: real, s: real, uz: real)
    requires e > 1.0 && a > 0.0 && s > 0.0 && h == Times(a, e) - Times(s, uz)
    requires Times(x, x) + Times(y, y) == Times(s, s) - Times(Times(s, uz), Times(s, uz))
    ensures OnHyperbola(x, y, h, e, a) <==> Times(e, h) - a == s
  {
    FocalIdentity(h, e, a);
    assert Times(a, e) - h == Times(s, uz);
    var d := Times(e, h) - a;
    if OnHyperbola(x, y, h, e, a) {
      HyperbolaAboveVertex(x, y, h, e, a);
      SquaresEqual(d, s);
    }
    assert Times(e, -h) == -Times(e, h);
    if h < 0.0 {
      TimesPos(e, -h);
    }
  }

  lemma FocalLinear(a: real, e: real, s: real, uz: real)
    ensures Times(e, Times(a, e) - Times(s, uz)) - a - s == Times(a, Esm1(e)) - Times(s, 1.0 + Times(e, uz))
  {}

  lemma RootMeets(sqrt: SquareRoot, x: real, h: real)
    requires Exact(sqrt) && x > 0.0
    ensures h == sqrt(x) <==> h >= 0.0 && Times(h, h) == x
  {
    RootPositive(sqrt, x);
    if h >= 0.0 && Times(h, h) == x {
      SquaresEqual(h, sqrt(x));
    }
  }

  /** A ray that is heading for the primary focus and would reach it after rho has a root on the
      secondary at the distance s before the focus exactly if s * (1 + e*uz) == a * (e*e - 1). */
  lemma SecondaryRoot(sqrt: SquareRoot, r: Ray, g: Geom, rho: real, s: real, a: real)
    requires Exact(sqrt) && Cassegrain(g) && a == (g.f + g.b) / (2.0 * g.e)
    requires Aimed(r.Pos(), r.Vel(), PrimaryFocus(g), rho) && s > 0.0
    ensures DistRoot(sqrt, rho - s, r, g, Secondary) == 0.0
       <==> Times(s, 1.0 + Times(g.e, r.vz)) == Times(a, Esm1(g.e))
  {
    var p, u, c := Advanced(r, rho - s), r.Vel(), g.f + g.b;
    AimedAdvance(r, PrimaryFocus(g), rho, rho - s);
    HeightTimes(p.x, p.y, g.e, c, a);
    var h := p.z - SecondaryCentre(g);
    FociFromPoint(p.Pos(), h, g, a);
    SecondaryOnSheet(p.Pos(), u, h, g, a, s);
    FocalLinear(a, g.e, s, u.z);
    HyperbolaHeightPositive(p.x, p.y, g.e, c);
    RootMeets(sqrt, SecondaryXY(p.x, p.y, g), h);
    if h >= 0.0 {
      HyperbolaPoint(p.x, p.y, h, g.e, c, a);
    }
  }

  lemma SecondaryOnSheet(p: Vec, u: Vec, h: real, g: Geom, a: real, s: real)
    requires g.e > 1.0 && a > 0.0 && s > 0.0 && Aimed(p, u, PrimaryFocus(g), s)
    requires Minus(PrimaryFocus(g), p) == Vec(-p.x, -p.y, Times(a, g.e) - h)
    ensures h == Times(a, g.e) - Times(s, u.z)
    ensures OnHyperbola(p.x, p.y, h, g.e, a) <==> Times(g.e, h) - a == s
  {
    AimedDistance(p, u, PrimaryFocus(g), s);
    assert Times(-p.x, -p.x) == Times(p.x, p.x) && Times(-p.y, -p.y) == Times(p.y, p.y);
    SheetPoint(p.x, p.y, h, g.e, a, s, u.z);
  }

  /** How far before the primary focus a ray that rises by uz meets the secondary. */
  function SecondaryDistance(g: Geom, uz: real): (s: real)
    requires Cassegrain(g) && 1.0 + Times(g.e, uz) > 0.0
    ensures s > 0.0
  {
    var a, k := (g.f + g.b) / (2.0 * g.e), 1.0 + Times(g.e, uz);
    DivPos(g.f + g.b, 2.0 * g.e);
    TimesPos(a, Esm1(g.e));
    DivPos(Times(a, Esm1(g.e)), k);
    Times(a, Esm1(g.e)) / k
  }

  /** A ray that is heading for the primary focus meets the secondary before it if and only if
      1 + e*uz is positive, and then at one point only. */
  lemma SecondaryMet(sqrt: SquareRoot, r: Ray, g: Geom, rho: real, d: real)
    requires Exact(sqrt) && Cassegrain(g) && Aimed(r.Pos(), r.Vel(), PrimaryFocus(g), rho) && d > 0.0
    ensures DistRoot(sqrt, rho - d, r, g, Secondary) == 0.0
       <==> 1.0 + Times(g.e, r.vz) > 0.0 && d == SecondaryDistance(g, r.vz)
  {
    var a, k := (g.f + g.b) / (2.0 * g.e), 1.0 + Times(g.e, r.vz);
    DivPos(g.f + g.b, 2.0 * g.e);
    TimesPos(a, Esm1(g.e));
    SecondaryRoot(sqrt, r, g, rho, d, a);
    if k > 0.0 {
      DivTimes(Times(a, Esm1(g.e)), k);
      OnlySolution(d, k, Times(a, Esm1(g.e)), SecondaryDistance(g, r.vz));
    } else {
      OnlySolution(d, k, Times(a, Esm1(g.e)), 0.0);
    }
  }

  lemma OnlySolution(d: real, k: real, q: real, s: real)
    requires d > 0.0 && q > 0.0 && (k > 0.0 ==> Times(s, k) == q)
    ensures Times(d, k) == q <==> k > 0.0 && d == s
  {
    if k > 0.0 {
      assert Times(k, d) == Times(d, k) && Times(k, s) == Times(s, k);
      if Times(d, k) == q {
        Cancel(k, d, s);
      }
    } else if k < 0.0 {
      TimesPos(d, -k);
      assert Times(d, -k) == -Times(d, k);
    } else {
      assert Times(d, k) == 0.0;
    }
  }

  // ---- The stages of ray_trace.c -------------------------------------------------------

  /** What raytrace_free_distance returns for a ray and a surface. */
  type FreeDistance = (Ray, Surface) -> real

  lemma NormalsPointUp(sqrt: SquareRoot, p: Vec, g: Geom)
    requires Exact(sqrt) && Cassegrain(g)
    ensures PrimaryNormal(sqrt, p, g).z > 0.0 && SecondaryNormal(sqrt, p, g).z > 0.0
  {
    var m := PrimaryNormalised(sqrt, p, g);
    m := SecondaryNormalised(sqrt, p, g);
  }

  /** The primary is one metre across; the margin absorbs round-off in the program. */
  predicate MissesPrimary(sqrt: SquareRoot, r: Ray) {
    sqrt(Times(r.x, r.x) + Times(r.y, r.y)) > 0.5 + 0.0000000001
  }

  function AtPrimary(sqrt: SquareRoot, free: FreeDistance, r: Ray): Ray {
    var a := Advanced(r, free(r, Primary));
    if MissesPrimary(sqrt, a) then a.(lost := true) else a
  }

  function OffPrimary(sqrt: SquareRoot, g: Geom, r: Ray): Ray
    requires Exact(sqrt) && Cassegrain(g)
  {
    NormalsPointUp(sqrt, r.Pos(), g);
    if r.lost then r else Bounce(r, PrimaryNormal(sqrt, r.Pos(), g))
  }

  function AtNext(free: FreeDistance, r: Ray, surf: Surface): Ray {
    if r.lost then r else Advanced(r, free(r, surf))
  }

  function OffSecondary(sqrt: SquareRoot, g: Geom, r: Ray): Ray
    requires Exact(sqrt) && Cassegrain(g)
  {
    NormalsPointUp(sqrt, r.Pos(), g);
    if r.lost then r else Bounce(r, SecondaryNormal(sqrt, r.Pos(), g))
  }

  /** The ray just after each of the two mirrors, and at the focal plane. */
  function LeavingPrimary(sqrt: SquareRoot, free: FreeDistance, g: Geom, r: Ray): Ray
    requires Exact(sqrt) && Cassegrain(g)
  {
    OffPrimary(sqrt, g, AtPrimary(sqrt, free, r))
  }

  function LeavingSecondary(sqrt: SquareRoot, free: FreeDistance, g: Geom, r: Ray): Ray
    requires Exact(sqrt) && Cassegrain(g)
  {
    OffSecondary(sqrt, g, AtNext(free, LeavingPrimary(sqrt, free, g, r), Secondary))
  }

  function ToFocalPlane(sqrt: SquareRoot, free: FreeDistance, g: Geom, r: Ray): Ray
    requires Exact(sqrt) && Cassegrain(g)
  {
    AtNext(free, LeavingSecondary(sqrt, free, g, r), FocalPlane)
  }

  /** Every distance the root finder returned on this ray's way is a root, and the one for the
      secondary lies before the primary focus. */
  predicate RootsFound(sqrt: SquareRoot, free: FreeDistance, g: Geom, r: Ray)
    requires Exact(sqrt) && Cassegrain(g)
  {
    var r1 := AtPrimary(sqrt, free, r);
    var r2 := LeavingPrimary(sqrt, free, g, r);
    var r3 := LeavingSecondary(sqrt, free, g, r);
    && DistRoot(sqrt, free(r, Primary), r, g, Primary) == 0.0
    && DistRoot(sqrt, free(r2, Secondary), r2, g, Secondary) == 0.0
    && free(r2, Secondary) < FocalDistance(r1.x, r1.y, g.f)
    && DistRoot(sqrt, free(r3, FocalPlane), r3, g, FocalPlane) == 0.0
  }

  predicate Parallel(r: Ray) { r.Vel() == Vec(0.0, 0.0, -1.0) }

  function PathLength(sqrt: SquareRoot, free: FreeDistance, g: Geom, r: Ray): real
    requires Exact(sqrt) && Cassegrain(g)
  {
    free(r, Primary) + free(LeavingPrimary(sqrt, free, g, r), Secondary)
    + free(LeavingSecondary(sqrt, free, g, r), FocalPlane)
  }

  /** Stigmatism and equal optical path: a ray parallel to the axis that is not lost reaches the
      focal plane exactly on the axis, and the distance it has travelled depends on nothing but
      the height it started from. */
  lemma ParallelRaysFocus(sqrt: SquareRoot, free: FreeDistance, g: Geom, r: Ray)
    requires Exact(sqrt) && Cassegrain(g)
    requires Parallel(r) && RootsFound(sqrt, free, g, r) && !AtPrimary(sqrt, free, r).lost
    ensures ToFocalPlane(sqrt, free, g, r).Pos() == Vec(0.0, 0.0, -(g.v + g.b))
    ensures PathLength(sqrt, free, g, r) == r.z + g.v + g.f + (g.f + g.b) / g.e
  {
    var r1 := AtPrimary(sqrt, free, r);
    var t1 := free(r, Primary);
    assert Times(t1, 0.0) == 0.0 && Times(t1, -1.0) == -t1;
    assert r1.Pos() == Vec(r.x, r.y, r.z - t1);
    PrimaryFocuses(sqrt, r1, g);
    var rho := FocalDistance(r1.x, r1.y, g.f);
    FocusHeight(r1.x, r1.y, g);
    var r2 := LeavingPrimary(sqrt, free, g, r);
    var t2 := free(r2, Secondary);
    AimedAdvance(r2, PrimaryFocus(g), rho, t2);
    var at2 := Advanced(r2, t2);
    SecondaryRefocuses(sqrt, at2, g, rho - t2);
    var r3 := LeavingSecondary(sqrt, free, g, r);
    PlaneHit(r3, SystemFocus(g), rho - t2 + (g.f + g.b) / g.e, free(r3, FocalPlane));
  }

  // ---- Which rays are lost ---------------------------------------------------------------

  /** The points of the primary: those within half a metre of the axis, and a margin. */
  predicate OnMirror(x: real, y: real) { Times(x, x) + Times(y, y) <= Times(0.5000000001, 0.5000000001) }

  lemma SquareOrder(x: real, y: real)
    requires x >= 0.0 && y > 0.0
    ensures x > y <==> Times(x, x) > Times(y, y)
  {
    if x > y {
      TimesPos(x - y, x + y);
    } else if x < y {
      TimesPos(y - x, x + y);
    }
    assert Times(x, x) - Times(y, y) == Times(x - y, x + y);
    assert Times(y - x, x + y) == -Times(x - y, x + y);
  }

  lemma MissesOutside(sqrt: SquareRoot, r: Ray)
    requires Exact(sqrt)
    ensures MissesPrimary(sqrt, r) <==> !OnMirror(r.x, r.y)
  {
    var q := Times(r.x, r.x) + Times(r.y, r.y);
    SquareNonNeg(r.x);
    SquareNonNeg(r.y);
    RootSquared(sqrt, q);
    SquareOrder(sqrt(q), 0.5000000001);
  }

  /** A ray is lost if it was, or if it meets the plane of the primary outside the mirror; then it stays
      there.  For a parallel ray that can be read off its start. */
  lemma LostExactly(sqrt: SquareRoot, free: FreeDistance, g: Geom, r: Ray)
    requires Exact(sqrt) && Cassegrain(g)
    ensures var end, at := ToFocalPlane(sqrt, free, g, r), Advanced(r, free(r, Primary));
            && (end.lost <==> r.lost || !OnMirror(at.x, at.y))
            && (end.lost ==> end.Pos() == at.Pos() && end.Vel() == r.Vel())
            && (Parallel(r) ==> at.x == r.x && at.y == r.y)
  {
    var t := free(r, Primary);
    MissesOutside(sqrt, Advanced(r, t));
    assert Times(t, 0.0) == 0.0;
  }

  // ---- Which rays have roots -------------------------------------------------------------

  /** A parallel ray that enters above (x, y) meets the secondary. */
  predicate Admits(x: real, y: real, g: Geom) {
    Times(g.e - 1.0, x * x + y * y) < Times(4.0 * g.f * g.f, g.e + 1.0)
  }

  lemma SlopeProduct(q: real, f: real, e: real, rho: real, uz: real)
    requires Times(4.0 * f, rho) == q + 4.0 * f * f && Times(rho, uz) == 2.0 * f - rho
    ensures Times(4.0 * f, Times(rho, 1.0 + Times(e, uz))) == Times(4.0 * f * f, e + 1.0) - Times(e - 1.0, q)
  {
    assert Times(rho, 1.0 + Times(e, uz)) == rho + Times(e, Times(rho, uz));
    assert Times(4.0 * f, Times(e, 2.0 * f - rho)) == Times(e, 8.0 * f * f - Times(4.0 * f, rho));
    TimesSum(4.0 * f, rho, Times(e, 2.0 * f - rho));
    assert Times(e, 4.0 * f * f - q) == Times(4.0 * f * f, e) - Times(e, q);
  }

  /** The slope after the primary, in terms of the entry point. */
  lemma SlopeAdmits(x: real, y: real, g: Geom, uz: real)
    requires Cassegrain(g) && Times(FocalDistance(x, y, g.f), uz) == 2.0 * g.f - FocalDistance(x, y, g.f)
    ensures FocalDistance(x, y, g.f) > 0.0 && (1.0 + Times(g.e, uz) > 0.0 <==> Admits(x, y, g))
  {
    var q, rho, k := x * x + y * y, FocalDistance(x, y, g.f), 1.0 + Times(g.e, uz);
    SquareNonNeg(x);
    SquareNonNeg(y);
    DivNonNeg(q, 4.0 * g.f);
    DivTimes(q, 4.0 * g.f);
    assert Times(4.0 * g.f, rho) == Times(q / (4.0 * g.f), 4.0 * g.f) + 4.0 * g.f * g.f;
    SlopeProduct(q, g.f, g.e, rho, uz);
    SignOfProduct(4.0 * g.f, rho, k);
  }

  lemma SignOfProduct(c: real, d: real, k: real)
    requires c > 0.0 && d > 0.0
    ensures Times(c, Times(d, k)) > 0.0 <==> k > 0.0
  {
    if k > 0.0 {
      TimesPos(d, k);
      TimesPos(c, Times(d, k));
    } else if k < 0.0 {
      TimesPos(d, -k);
      assert Times(d, -k) == -Times(d, k);
      TimesPos(c, -Times(d, k));
      assert Times(c, -Times(d, k)) == -Times(c, Times(d, k));
    } else {
      assert Times(d, 0.0) == 0.0 && Times(c, 0.0) == 0.0;
    }
  }

  /** From the primary, a parallel ray meets the secondary before the focus exactly if it enters close
      enough to the axis, and then at one distance only. */
  lemma MeetsSecondary(sqrt: SquareRoot, r: Ray, g: Geom, t: real)
    requires Exact(sqrt) && Cassegrain(g) && Parallel(r) && r.z == PrimaryZ(r.x, r.y, g)
    requires PrimaryNormal(sqrt, r.Pos(), g).z > 0.0 && t < FocalDistance(r.x, r.y, g.f)
    ensures var r2 := Bounce(r, PrimaryNormal(sqrt, r.Pos(), g));
            && (1.0 + Times(g.e, r2.vz) > 0.0 <==> Admits(r.x, r.y, g))
            && (DistRoot(sqrt, t, r2, g, Secondary) == 0.0
                <==> Admits(r.x, r.y, g) && t == FocalDistance(r.x, r.y, g.f) - SecondaryDistance(g, r2.vz))
  {
    var r2, rho := Bounce(r, PrimaryNormal(sqrt, r.Pos(), g)), FocalDistance(r.x, r.y, g.f);
    PrimaryFocuses(sqrt, r, g);
    FocusHeight(r.x, r.y, g);
    SlopeAdmits(r.x, r.y, g, r2.vz);
    SecondaryMet(sqrt, r2, g, rho, rho - t);
  }

  /** The distances to the mirrors and the focal plane, for a parallel ray that is admitted. */
  lemma RootsAre(sqrt: SquareRoot, free: FreeDistance, g: Geom, r: Ray)
    requires Exact(sqrt) && Cassegrain(g) && Parallel(r) && !AtPrimary(sqrt, free, r).lost
    ensures RootsFound(sqrt, free, g, r) <==>
              && Admits(r.x, r.y, g) && free(r, Primary) == r.z - PrimaryZ(r.x, r.y, g)
              && var r2 := LeavingPrimary(sqrt, free, g, r);
                 && 1.0 + Times(g.e, r2.vz) > 0.0
                 && free(r2, Secondary) == FocalDistance(r.x, r.y, g.f) - SecondaryDistance(g, r2.vz)
                 && free(LeavingSecondary(sqrt, free, g, r), FocalPlane)
                      == SecondaryDistance(g, r2.vz) + (g.f + g.b) / g.e
  {
    var t1, r1 := free(r, Primary), AtPrimary(sqrt, free, r);
    assert Times(t1, 0.0) == 0.0 && Times(t1, -1.0) == -t1;
    assert r1.Pos() == Vec(r.x, r.y, r.z - t1) && r1.Vel() == r.Vel();
    assert DistRoot(sqrt, t1, r, g, Primary) == 0.0 <==> t1 == r.z - PrimaryZ(r.x, r.y, g);
    if t1 == r.z - PrimaryZ(r.x, r.y, g) {
      LaterRoots(sqrt, free, g, r, r1);
    }
  }

  lemma LaterRoots(sqrt: SquareRoot, free: FreeDistance, g: Geom, r: Ray, r1: Ray)
    requires Exact(sqrt) && Cassegrain(g) && r1 == AtPrimary(sqrt, free, r) && !r1.lost
    requires Parallel(r1) && r1.z == PrimaryZ(r1.x, r1.y, g)
    ensures var r2, r3 := LeavingPrimary(sqrt, free, g, r), LeavingSecondary(sqrt, free, g, r);
            var rho := FocalDistance(r1.x, r1.y, g.f);
            && (1.0 + Times(g.e, r2.vz) > 0.0 <==> Admits(r1.x, r1.y, g))
            && (DistRoot(sqrt, free(r2, Secondary), r2, g, Secondary) == 0.0 && free(r2, Secondary) < rho
                <==> Admits(r1.x, r1.y, g) && free(r2, Secondary) == rho - SecondaryDistance(g, r2.vz))
            && (Admits(r1.x, r1.y, g) && free(r2, Secondary) == rho - SecondaryDistance(g, r2.vz) ==>
                  (DistRoot(sqrt, free(r3, FocalPlane), r3, g, FocalPlane) == 0.0
                   <==> free(r3, FocalPlane) == SecondaryDistance(g, r2.vz) + (g.f + g.b) / g.e))
  {
    PrimaryFocuses(sqrt, r1, g);
    var rho := FocalDistance(r1.x, r1.y, g.f);
    var r2, r3 := LeavingPrimary(sqrt, free, g, r), LeavingSecondary(sqrt, free, g, r);
    MeetsSecondary(sqrt, r1, g, rho - 1.0);
    var t2 := free(r2, Secondary);
    if t2 < rho {
      MeetsSecondary(sqrt, r1, g, t2);
    }
    if Admits(r1.x, r1.y, g) && t2 == rho - SecondaryDistance(g, r2.vz) {
      AimedAdvance(r2, PrimaryFocus(g), rho, t2);
      SecondaryRefocuses(sqrt, Advanced(r2, t2), g, rho - t2);
      PlaneRoot(r3, SystemFocus(g), rho - t2 + (g.f + g.b) / g.e, free(r3, FocalPlane));
    }
  }

  lemma PlaneRoot(r: Ray, q: Vec, d: real, t: real)
    requires Aimed(r.Pos(), r.Vel(), q, d) && r.z != q.z
    ensures r.z + Times(t, r.vz) == q.z <==> t == d
  {
    assert Times(d, r.vz) == q.z - r.z;
    if r.z + Times(t, r.vz) == q.z {
      PlaneHit(r, q, d, t);
    }
  }

  method AdvanceToPrimary(sqrt: SquareRoot, free: FreeDistance, rays: array<Ray>)
    modifies rays
    ensures forall k :: 0 <= k < rays.Length ==> rays[k] == AtPrimary(sqrt, free, old(rays[k]))
  {
    for i := 0 to rays.Length
      invariant forall k :: 0 <= k < i ==> rays[k] == AtPrimary(sqrt, free, old(rays[k]))
      invariant forall k :: i <= k < rays.Length ==> rays[k] == old(rays[k])
    {
      var t := free(rays[i], Primary);
      rays[i] := Advanced(rays[i], t);
      if MissesPrimary(sqrt, rays[i]) {
        rays[i] := rays[i].(lost := true);
      }
    }
  }

  method ReflectOffPrimary(sqrt: SquareRoot, g: Geom, rays: array<Ray>)
    requires Exact(sqrt) && Cassegrain(g)
    modifies rays
    ensures forall k :: 0 <= k < rays.Length ==> rays[k] == OffPrimary(sqrt, g, old(rays[k]))
  {
    for i := 0 to rays.Length
      invariant forall k :: 0 <= k < i ==> rays[k] == OffPrimary(sqrt, g, old(rays[k]))
      invariant forall k :: i <= k < rays.Length ==> rays[k] == old(rays[k])
    {
      if !rays[i].lost {
        NormalsPointUp(sqrt, rays[i].Pos(), g);
        var normal := PrimaryNormal(sqrt, rays[i].Pos(), g);
        rays[i] := Bounce(rays[i], normal);
      }
    }
  }

  method ReflectOffSecondary(sqrt: SquareRoot, g: Geom, rays: array<Ray>)
    requires Exact(sqrt) && Cassegrain(g)
    modifies rays
    ensures forall k :: 0 <= k < rays.Length ==> rays[k] == OffSecondary(sqrt, g, old(rays[k]))
  {
    for i := 0 to rays.Length
      invariant forall k :: 0 <= k < i ==> rays[k] == OffSecondary(sqrt, g, old(rays[k]))
      invariant forall k :: i <= k < rays.Length ==> rays[k] == old(rays[k])
    {
      if !rays[i].lost {
        NormalsPointUp(sqrt, rays[i].Pos(), g);
        var normal := SecondaryNormal(sqrt, rays[i].Pos(), g);
        rays[i] := Bounce(rays[i], normal);
      }
    }
  }

  method AdvanceTo(free: FreeDistance, surf: Surface, rays: array<Ray>)
    modifies rays
    ensures forall k :: 0 <= k < rays.Length ==> rays[k] == AtNext(free, old(rays[k]), surf)
  {
    for i := 0 to rays.Length
      invariant forall k :: 0 <= k < i ==> rays[k] == AtNext(free, old(rays[k]), surf)
      invariant forall k :: i <= k < rays.Length ==> rays[k] == old(rays[k])
    {
      if !rays[i].lost {
        var t := free(rays[i], surf);
        rays[i] := Advanced(rays[i], t);
      }
    }
  }

  /** The telescope part of the trace: the loops of ray_trace.c over the rays, one stage after
      the other, in place. */
  method TraceTelescope(sqrt: SquareRoot, free: FreeDistance, g: Geom, rays: array<Ray>)
    requires Exact(sqrt) && Cassegrain(g)
    modifies rays
    ensures forall k :: 0 <= k < rays.Length ==> rays[k] == ToFocalPlane(sqrt, free, g, old(rays[k]))
    ensures forall k :: 0 <= k < rays.Length ==>
              Focuses(sqrt, free, g, old(rays[k]), rays[k])
    ensures forall k :: 0 <= k < rays.Length && Parallel(old(rays[k])) ==>
              (rays[k].lost <==> old(rays[k]).lost || !OnMirror(old(rays[k]).x, old(rays[k]).y))
  {
    AdvanceToPrimary(sqrt, free, rays);
    ReflectOffPrimary(sqrt, g, rays);
    AdvanceTo(free, Secondary, rays);
    ReflectOffSecondary(sqrt, g, rays);
    AdvanceTo(free, FocalPlane, rays);
    forall k | 0 <= k < rays.Length
      ensures Focuses(sqrt, free, g, old(rays[k]), rays[k])
    {
      if Parallel(old(rays[k])) && !rays[k].lost && RootsFound(sqrt, free, g, old(rays[k])) {
        ParallelRaysFocus(sqrt, free, g, old(rays[k]));
      }
    }
    forall k | 0 <= k < rays.Length && Parallel(old(rays[k]))
      ensures rays[k].lost <==> old(rays[k]).lost || !OnMirror(old(rays[k]).x, old(rays[k]).y)
    {
      LostExactly(sqrt, free, g, old(rays[k]));
    }
  }

  /** A parallel ray whose roots were found ends on the axis, or is marked as lost. */
  predicate Focuses(sqrt: SquareRoot, free: FreeDistance, g: Geom, start: Ray, end: Ray)
    requires Exact(sqrt) && Cassegrain(g)
  {
    Parallel(start) && !end.lost && RootsFound(sqrt, free, g, start) ==>
      end.Pos() == Vec(0.0, 0.0, -(g.v + g.b))
  }
}
