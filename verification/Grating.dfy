/** The spectrograph: grating surfaces and normals, the groove vector, diffraction
    (raytrace_vecray) and the detector map. */
module Grating {
  import opened RealArith
  import opened Optics

  // ---- An orthonormal pair and its cross product ----------------------------------------

  predicate Orthonormal(n: Vec, g: Vec) { Unit(n) && Unit(g) && Dot(n, g) == 0.0 }

  lemma LagrangeIdentity(n: Vec, g: Vec)
    ensures Dot(Cross(n, g), Cross(n, g)) == Times(Dot(n, n), Dot(g, g)) - Times(Dot(n, g), Dot(n, g))
  {}

  lemma CrossOrthogonal(n: Vec, g: Vec)
    ensures Dot(Cross(n, g), n) == 0.0 && Dot(Cross(n, g), g) == 0.0
  {}

  lemma Frame(n: Vec, g: Vec)
    requires Orthonormal(n, g)
    ensures Unit(Cross(n, g)) && Dot(Cross(n, g), n) == 0.0 && Dot(Cross(n, g), g) == 0.0
  {
    LagrangeIdentity(n, g);
    CrossOrthogonal(n, g);
    assert Times(Dot(n, n), Dot(g, g)) == Times(1.0, 1.0);
    assert Times(Dot(n, g), Dot(n, g)) == Times(0.0, 0.0);
  }

  function Combine(b: Vec, n: Vec, g: Vec, x1: real, x2: real, x3: real): Vec {
    Add(Add(Scale(x1, b), Scale(x2, n)), Scale(x3, g))
  }

  /** Components of a combination of an orthonormal frame. */
  lemma CombineDots(b: Vec, n: Vec, g: Vec, x1: real, x2: real, x3: real)
    requires Orthonormal(n, g) && Unit(b) && Dot(b, n) == 0.0 && Dot(b, g) == 0.0
    ensures var o := Combine(b, n, g, x1, x2, x3);
            && Dot(o, b) == x1 && Dot(o, n) == x2 && Dot(o, g) == x3
            && Dot(o, o) == Times(x1, x1) + Times(x2, x2) + Times(x3, x3)
  {
    var o := Combine(b, n, g, x1, x2, x3);
    CombineDot(b, n, g, x1, x2, x3, b);
    CombineDot(b, n, g, x1, x2, x3, n);
    CombineDot(b, n, g, x1, x2, x3, g);
    CombineDot(b, n, g, x1, x2, x3, o);
    assert Dot(n, b) == Dot(b, n) && Dot(g, b) == Dot(b, g) && Dot(g, n) == Dot(n, g);
    assert forall k: real :: Times(k, 1.0) == k && Times(k, 0.0) == 0.0;
    assert Dot(b, o) == Dot(o, b) && Dot(n, o) == Dot(o, n) && Dot(g, o) == Dot(o, g);
  }

  lemma CombineDot(b: Vec, n: Vec, g: Vec, x1: real, x2: real, x3: real, q: Vec)
    ensures Dot(Combine(b, n, g, x1, x2, x3), q)
         == Times(x1, Dot(b, q)) + Times(x2, Dot(n, q)) + Times(x3, Dot(g, q))
  {
    AddDot(Add(Scale(x1, b), Scale(x2, n)), Scale(x3, g), q);
    AddDot(Scale(x1, b), Scale(x2, n), q);
    ScaleDot(x1, b, q);
    ScaleDot(x2, n, q);
    ScaleDot(x3, g, q);
  }

  lemma AddDot(a: Vec, b: Vec, q: Vec)
    ensures Dot(Add(a, b), q) == Dot(a, q) + Dot(b, q)
  {
    SumTimes(a.x, b.x, q.x);
    SumTimes(a.y, b.y, q.y);
    SumTimes(a.z, b.z, q.z);
  }

  lemma SumTimes(x: real, y: real, k: real)
    ensures Times(x + y, k) == Times(x, k) + Times(y, k)
  {}

  lemma TripleProduct(r: Vec, n: Vec, g: Vec)
    ensures Cross(r, Cross(n, g)) == Add(Scale(Dot(r, g), n), Scale(-Dot(r, n), g))
  {
    TripleCoordinate(r.x, r.y, r.z, n.x, n.y, n.z, g.x, g.y, g.z);
    TripleCoordinate(r.y, r.z, r.x, n.y, n.z, n.x, g.y, g.z, g.x);
    TripleCoordinate(r.z, r.x, r.y, n.z, n.x, n.y, g.z, g.x, g.y);
  }

  lemma TripleCoordinate(r1: real, r2: real, r3: real, n1: real, n2: real, n3: real, g1: real, g2: real, g3: real)
    ensures Times(r2, Times(n1, g2) - Times(n2, g1)) - Times(r3, Times(n3, g1) - Times(n1, g3))
         == Times(Times(r1, g1) + Times(r2, g2) + Times(r3, g3), n1)
            + Times(-(Times(r1, n1) + Times(r2, n2) + Times(r3, n3)), g1)
  {}

  lemma NoLength(r: Vec)
    requires Dot(r, r) == 0.0
    ensures r == Vec(0.0, 0.0, 0.0)
  {
    SquareNonNeg(r.x);
    SquareNonNeg(r.y);
    SquareNonNeg(r.z);
    SquaresEqual(if r.x < 0.0 then -r.x else r.x, 0.0);
    SquaresEqual(if r.y < 0.0 then -r.y else r.y, 0.0);
    SquaresEqual(if r.z < 0.0 then -r.z else r.z, 0.0);
  }

  lemma MinusDot(a: Vec, b: Vec, q: Vec)
    ensures Dot(Minus(a, b), q) == Dot(a, q) - Dot(b, q)
  {}

  lemma ScaleZero(k: real, l: real, n: Vec, g: Vec)
    requires k == 0.0 && l == 0.0
    ensures Add(Scale(k, n), Scale(l, g)) == Vec(0.0, 0.0, 0.0)
  {}

  /** A vector orthogonal to a unit vector b with vanishing product r x b is zero. */
  lemma ZeroFromProducts(r: Vec, b: Vec)
    requires Unit(b) && Dot(r, b) == 0.0 && Cross(r, b) == Vec(0.0, 0.0, 0.0)
    ensures r == Vec(0.0, 0.0, 0.0)
  {
    LagrangeIdentity(r, b);
    TimesOne(Dot(b, b), Dot(r, r));
    assert Dot(r, r) == 0.0 by {
      assert Times(Dot(r, r), Dot(b, b)) == Times(Dot(b, b), Dot(r, r));
      assert Times(Dot(r, b), Dot(r, b)) == Times(0.0, 0.0);
      assert Dot(Cross(r, b), Cross(r, b)) == Times(0.0, 0.0) + Times(0.0, 0.0) + Times(0.0, 0.0);
    }
    NoLength(r);
  }

  lemma OrthogonalToFrame(r: Vec, n: Vec, g: Vec)
    requires Orthonormal(n, g)
    requires Dot(r, Cross(n, g)) == 0.0 && Dot(r, n) == 0.0 && Dot(r, g) == 0.0
    ensures r == Vec(0.0, 0.0, 0.0)
  {
    Frame(n, g);
    TripleProduct(r, n, g);
    ScaleZero(Dot(r, g), -Dot(r, n), n, g);
    ZeroFromProducts(r, Cross(n, g));
  }

  /** Any vector is the sum of its components along n x g, n and g. */
  lemma FrameComplete(i: Vec, n: Vec, g: Vec)
    requires Orthonormal(n, g)
    ensures i == Combine(Cross(n, g), n, g, Dot(i, Cross(n, g)), Dot(i, n), Dot(i, g))
  {
    Frame(n, g);
    var b := Cross(n, g);
    var o := Combine(b, n, g, Dot(i, b), Dot(i, n), Dot(i, g));
    CombineDots(b, n, g, Dot(i, b), Dot(i, n), Dot(i, g));
    var r := Minus(i, o);
    assert Dot(r, b) == 0.0 by { MinusDot(i, o, b); }
    assert Dot(r, n) == 0.0 by { MinusDot(i, o, n); }
    assert Dot(r, g) == 0.0 by { MinusDot(i, o, g); }
    OrthogonalToFrame(r, n, g);
  }

  // ---- raytrace_vecray -----------------------------------------------------------------

  /** The rows r1x, r2x, r3x of the rotation that vecray builds, from its own formulas; `a` is
      its normalisation sqrt(1 - g3*g3). */
  function RotationRows(n: Vec, g: Vec, a: real): (Vec, Vec, Vec)
    requires a != 0.0
  {
    var xn1 := (Times(n.x, g.y) - Times(n.y, g.x)) / a;
    var xn2 := Times(g.z, Times(n.x, g.x) + Times(n.y, g.y)) / a - Times(a, n.z);
    (Vec((Times(xn2, g.y) - Times(xn1, Times(g.z, g.x))) / a,
         -(Times(xn2, g.x) + Times(xn1, Times(g.y, g.z))) / a,
         Times(xn1, a)),
     Vec((Times(xn1, g.y) + Times(xn2, Times(g.z, g.x))) / a,
         (-Times(xn1, g.x) + Times(xn2, Times(g.y, g.z))) / a,
         -Times(a, xn2)),
     g)
  }

  /** The intermediate quantities of the rotation, freed of their quotients. */
  lemma RotationParts(n: Vec, g: Vec, a: real, xn1: real, xn2: real)
    requires Orthonormal(n, g) && a > 0.0 && Times(a, a) == 1.0 - Times(g.z, g.z)
    requires xn1 == (Times(n.x, g.y) - Times(n.y, g.x)) / a
    requires xn2 == Times(g.z, Times(n.x, g.x) + Times(n.y, g.y)) / a - Times(a, n.z)
    ensures Times(a, xn1) == Times(n.x, g.y) - Times(n.y, g.x) && Times(a, xn2) == -n.z
  {
    DivTimes(Times(n.x, g.y) - Times(n.y, g.x), a);
    assert Times(a, xn1) == Times(xn1, a);
    var s := Times(n.x, g.x) + Times(n.y, g.y);
    assert s == -Times(n.z, g.z);
    DivTimes(Times(g.z, s), a);
    var q := Times(g.z, s) / a;
    calc {
      Times(a, q - Times(a, n.z));
      Times(q, a) - Times(Times(a, a), n.z);
      Times(g.z, -Times(n.z, g.z)) - Times(1.0 - Times(g.z, g.z), n.z);
      -n.z;
    }
  }

  /** A quotient by a is known from its multiple by the square of a. */
  lemma RotationEntry(a: real, top: real, goal: real)
    requires a > 0.0 && Times(a, top) == Times(Times(a, a), goal)
    ensures top / a == goal
  {
    DivTimes(top, a);
    TimesPos(a, a);
    TimesTurns(a, a, top / a);
    TimesSwaps(top / a, Times(a, a));
    Cancel(Times(a, a), top / a, goal);
  }

  /** What xn1, xn2 and a make of two terms of a numerator. */
  lemma ScaledTerms(a: real, xn1: real, xn2: real, c: real, n3: real, p: real, q: real)
    requires Times(a, xn1) == c && Times(a, xn2) == -n3
    ensures Times(a, Times(xn1, p)) == Times(c, p) && Times(a, Times(xn2, q)) == -Times(n3, q)
  {
    TimesTurns(a, xn1, p);
    TimesSwaps(p, Times(xn1, a));
    TimesSwaps(xn1, a);
    TimesTurns(a, xn2, q);
    TimesSwaps(q, Times(xn2, a));
    TimesSwaps(xn2, a);
    NegTimes(n3, q);
  }

  /** One of two determinants: with n.g == 0, the product of n1*g2 - n2*g1 and g1. */
  lemma MinorTimes(n1: real, n2: real, p3: real, g1: real, g2: real, c: real, a2: real)
    requires c == Times(n1, g2) - Times(n2, g1) && Times(n1, g1) + Times(n2, g2) + p3 == 0.0
    requires Times(g1, g1) + Times(g2, g2) == a2
    ensures Times(g1, c) == -Times(n2, a2) - Times(g2, p3)
  {
    TimesSum(g1, Times(n1, g2), Times(n2, g1));
    TimesTurns(g1, n1, g2);
    TimesTurns(g1, n2, g1);
    var p1, p2 := Times(n1, g1), Times(n2, g2);
    TimesSum(g2, 0.0 - p2, p3);
    TimesSum(g2, 0.0, p2);
    assert Times(g2, 0.0) == 0.0;
    TimesTurns(g2, n2, g2);
    TimesSquare(g1, n2);
    TimesSquare(g2, n2);
    TimesSum(n2, Times(g1, g1), Times(g2, g2));
  }

  lemma TimesSquare(g: real, n: real)
    ensures Times(g, Times(n, g)) == Times(n, Times(g, g))
  {}

  /** The numerators of the four entries. */
  lemma RotationNumerators(n1: real, n2: real, n3: real, g1: real, g2: real, g3: real, c: real, a2: real)
    requires Times(n1, g1) + Times(n2, g2) + Times(n3, g3) == 0.0
    requires Times(g1, g1) + Times(g2, g2) + Times(g3, g3) == 1.0
    requires c == Times(n1, g2) - Times(n2, g1) && a2 == 1.0 - Times(g3, g3)
    ensures Times(c, g2) - Times(n3, Times(g3, g1)) == Times(a2, n1)
    ensures -Times(c, g1) - Times(n3, Times(g2, g3)) == Times(a2, n2)
    ensures -Times(n3, g2) - Times(c, Times(g3, g1)) == Times(a2, Times(n2, g3) - Times(n3, g2))
    ensures -(-Times(n3, g1) + Times(c, Times(g2, g3))) == Times(a2, Times(n3, g1) - Times(n1, g3))
  {
    var p3 := Times(n3, g3);
    MinorTimes(n1, n2, p3, g1, g2, c, a2);
    MinorTimes(n2, n1, p3, g2, g1, -c, a2);
    TimesSwaps(c, g1);
    TimesSwaps(c, g2);
    TimesSwaps(-c, g2);
    NegTimes(c, g2);
    TimesSwaps(a2, n1);
    TimesSwaps(a2, n2);
    TimesThree(g2, n3, g3);
    TimesThree(g1, n3, g3);
    TimesSwaps(g1, g3);
    ThirdColumn(c, g1, g2, g3, n2, n3, a2);
    ThirdColumn(-c, g2, g1, g3, n1, n3, a2);
    NegTimes(c, Times(g3, g2));
    TimesSwaps(g2, g3);
    TimesSum(a2, Times(n3, g1), Times(n1, g3));
    TimesSum(a2, Times(n1, g3), Times(n3, g1));
  }

  lemma TimesThree(x: real, y: real, z: real)
    ensures Times(x, Times(y, z)) == Times(y, Times(x, z))
  {}

  /** From the product with g1 to the product with g3*g1. */
  lemma ThirdColumn(c: real, g1: real, g2: real, g3: real, n2: real, n3: real, a2: real)
    requires Times(g1, c) == -Times(n2, a2) - Times(g2, Times(n3, g3)) && a2 == 1.0 - Times(g3, g3)
    ensures -Times(n3, g2) - Times(c, Times(g3, g1)) == Times(a2, Times(n2, g3) - Times(n3, g2))
  {
    TimesThree(c, g3, g1);
    TimesSwaps(c, g1);
    var u, v := Times(n2, a2), Times(g2, Times(n3, g3));
    TimesSum(g3, 0.0 - u, v);
    TimesSum(g3, 0.0, u);
    assert Times(g3, 0.0) == 0.0;
    FourProduct(g2, n3, g3);
    TimesSum(Times(n3, g2), 1.0, Times(g3, g3));
    TimesSwaps(a2, Times(n3, g2));
    TimesSwaps(a2, Times(n2, g3));
    TimesSum(a2, Times(n2, g3), Times(n3, g2));
    assert Times(Times(n3, g2), 1.0) == Times(n3, g2);
    ThreeSwap(g3, n2, a2);
  }

  lemma FourProduct(g2: real, n3: real, g3: real)
    ensures Times(g3, Times(g2, Times(n3, g3))) == Times(Times(n3, g2), Times(g3, g3))
  {}

  lemma ThreeSwap(g3: real, n2: real, a2: real)
    ensures Times(g3, Times(n2, a2)) == Times(Times(n2, g3), a2)
  {}

  /** The matrix of vecray is orthonormal: its rows are n x g, n and g. */
  lemma RotationIsFrame(n: Vec, g: Vec, a: real)
    requires Orthonormal(n, g) && a > 0.0 && Times(a, a) == 1.0 - Times(g.z, g.z)
    ensures RotationRows(n, g, a) == (Cross(n, g), n, g)
  {
    var xn1 := (Times(n.x, g.y) - Times(n.y, g.x)) / a;
    var xn2 := Times(g.z, Times(n.x, g.x) + Times(n.y, g.y)) / a - Times(a, n.z);
    RotationParts(n, g, a, xn1, xn2);
    TimesSwaps(xn1, a);
    RotationEntries(n.x, n.y, n.z, g.x, g.y, g.z, a, xn1, xn2);
  }

  lemma RotationEntries(n1: real, n2: real, n3: real, g1: real, g2: real, g3: real, a: real, xn1: real, xn2: real)
    requires Times(n1, g1) + Times(n2, g2) + Times(n3, g3) == 0.0
    requires Times(g1, g1) + Times(g2, g2) + Times(g3, g3) == 1.0
    requires a > 0.0 && Times(a, a) == 1.0 - Times(g3, g3)
    requires Times(a, xn1) == Times(n1, g2) - Times(n2, g1) && Times(a, xn2) == -n3
    ensures (Times(xn2, g2) - Times(xn1, Times(g3, g1))) / a == Times(n2, g3) - Times(n3, g2)
    ensures -(Times(xn2, g1) + Times(xn1, Times(g2, g3))) / a == Times(n3, g1) - Times(n1, g3)
    ensures (Times(xn1, g2) + Times(xn2, Times(g3, g1))) / a == n1
    ensures (-Times(xn1, g1) + Times(xn2, Times(g2, g3))) / a == n2
  {
    var c, a2 := Times(a, xn1), Times(a, a);
    RotationNumerators(n1, n2, n3, g1, g2, g3, c, a2);
    var u, v := Times(g3, g1), Times(g2, g3);
    ScaledTerms(a, xn1, xn2, c, n3, u, g2);
    ScaledTerms(a, xn1, xn2, c, n3, v, g1);
    ScaledTerms(a, xn1, xn2, c, n3, g2, u);
    ScaledTerms(a, xn1, xn2, c, n3, g1, v);
    TimesSum(a, Times(xn2, g2), Times(xn1, u));
    RotationEntry(a, Times(xn2, g2) - Times(xn1, u), Times(n2, g3) - Times(n3, g2));
    TimesSum(a, Times(xn2, g1), Times(xn1, v));
    NegativeTimes(a, Times(xn2, g1) + Times(xn1, v));
    RotationEntry(a, -(Times(xn2, g1) + Times(xn1, v)), Times(n3, g1) - Times(n1, g3));
    TimesSum(a, Times(xn1, g2), Times(xn2, u));
    RotationEntry(a, Times(xn1, g2) + Times(xn2, u), n1);
    NegativeTimes(a, Times(xn1, g1));
    TimesSum(a, -Times(xn1, g1), Times(xn2, v));
    RotationEntry(a, -Times(xn1, g1) + Times(xn2, v), n2);
  }

  lemma NegativeTimes(x: real, y: real)
    ensures Times(x, -y) == -Times(x, y)
  {}

  lemma NegProducts(n: Vec, g: Vec, i: Vec)
    ensures Cross(n, Neg(g)) == Neg(Cross(n, g)) && Dot(i, Neg(g)) == -Dot(i, g)
    ensures Dot(Neg(g), Neg(g)) == Dot(g, g) && Times(Neg(g).z, Neg(g).z) == Times(g.z, g.z)
  {
    NegCross(n, g);
    NegDot(i, g);
    NegBoth(g, g);
    NegTimes(g.z, g.z);
  }

  lemma NegCross(n: Vec, g: Vec)
    ensures Cross(n, Neg(g)) == Neg(Cross(n, g))
  {
    NegTimes(n.y, g.z);
    NegTimes(n.z, g.y);
    NegTimes(n.z, g.x);
    NegTimes(n.x, g.z);
    NegTimes(n.x, g.y);
    NegTimes(n.y, g.x);
  }

  lemma NegDot(i: Vec, q: Vec)
    ensures Dot(i, Neg(q)) == -Dot(i, q)
  {
    NegTimes(i.x, q.x);
    NegTimes(i.y, q.y);
    NegTimes(i.z, q.z);
  }

  lemma NegBoth(i: Vec, q: Vec)
    ensures Dot(Neg(i), Neg(q)) == Dot(i, q) && Dot(Neg(i), q) == -Dot(i, q)
  {
    NegTimes(i.x, q.x);
    NegTimes(i.y, q.y);
    NegTimes(i.z, q.z);
  }

  /** The groove vector, turned so that the incident ray does not run against n x g. */
  function Oriented(i: Vec, n: Vec, g: Vec): Vec {
    if Dot(i, Cross(n, g)) < 0.0 then Neg(g) else g
  }

  /** The shift of the tangential component in order m for line spacing d. */
  function OrderShift(m: real, wave: real, d: real): real
    requires d != 0.0
  {
    m * wave / d
  }

  /** What is left for the component along the normal. */
  function Discriminant(k: real, i: Vec, n: Vec, g: Vec): real {
    var h := Oriented(i, n, g);
    1.0 - Times(k + Dot(i, Cross(n, h)), k + Dot(i, Cross(n, h))) - Times(Dot(i, h), Dot(i, h))
  }

  /** The outgoing direction for the shift k of the order. */
  function Diffracted(sqrt: SquareRoot, k: real, i: Vec, n: Vec, g: Vec): Vec {
    var h := Oriented(i, n, g);
    Combine(Cross(n, h), n, h, k + Dot(i, Cross(n, h)), sqrt(Discriminant(k, i, n, g)), Dot(i, h))
  }

  /** The direction o obeys the law of the grating in order m, for the line spacing d: it is a unit vector
      on the side of the normal, keeps the component along the grooves, and gains m*wave/d in the
      direction across the grooves that the incident ray does not run against. */
  ghost predicate Obeys(o: Vec, i: Vec, m: real, wave: real, d: real, n: Vec, g: Vec) {
    var b := if Dot(i, Cross(n, g)) < 0.0 then Neg(Cross(n, g)) else Cross(n, g);
    Unit(o) && Dot(o, n) >= 0.0 && Dot(o, g) == Dot(i, g) && Times(d, Dot(o, b) - Dot(i, b)) == Times(m, wave)
  }

  lemma NormalisationPositive(sqrt: SquareRoot, g: Vec) returns (a: real)
    requires Exact(sqrt) && Times(g.z, g.z) < 1.0
    ensures a == sqrt(1.0 - Times(g.z, g.z)) && a > 0.0 && Times(a, a) == 1.0 - Times(g.z, g.z)
  {
    RootPositive(sqrt, 1.0 - Times(g.z, g.z));
    a := sqrt(1.0 - Times(g.z, g.z));
  }

  /** raytrace_vecray, in place on ray j.  `flips` counts how often the program jumps back to
      turn g around. */
  method VecRay(sqrt: SquareRoot, m: real, d: real, rays: array<Ray>, j: nat, n: Vec, g0: Vec)
    returns (flips: nat)
    requires Exact(sqrt) && d != 0.0 && j < rays.Length
    requires Orthonormal(n, g0) && Times(g0.z, g0.z) < 1.0
    modifies rays
    ensures flips <= 1 && (flips == 1 <==> Dot(old(rays[j]).Vel(), Cross(n, g0)) < 0.0)
    ensures rays[..] == old(rays[..])[j := old(rays[j]).Towards(
              Diffracted(sqrt, OrderShift(m, old(rays[j]).lambda, d), old(rays[j]).Vel(), n, g0))]
    ensures forall o :: Obeys(o, old(rays[j]).Vel(), m, old(rays[j]).lambda, d, n, g0) ==> rays[j].Vel() == o
    ensures m == 0.0 && Unit(old(rays[j]).Vel()) && Dot(old(rays[j]).Vel(), n) <= 0.0 ==>
              rays[j].Vel() == Mirror(old(rays[j]).Vel(), n)
  {
    var i, wave, g := rays[j].Vel(), rays[j].lambda, g0;
    NegProducts(n, g0, i);
    NegProducts(n, g0, n);
    NegDot(i, Cross(n, g0));
    ghost var a0 := NormalisationPositive(sqrt, g);
    var a := sqrt(1.0 - Times(g.z, g.z));
    var rows := RotationRows(n, g, a);
    RotationIsFrame(n, g, a);
    var xxi1 := Dot(i, rows.0);
    flips := 0;
    while xxi1 < 0.0
      invariant Orthonormal(n, g) && rows == (Cross(n, g), n, g) && xxi1 == Dot(i, rows.0)
      invariant flips == 0 ==> g == g0
      invariant flips != 0 ==> flips == 1 && g == Neg(g0) && xxi1 > 0.0 && Dot(i, Cross(n, g0)) < 0.0
      invariant rays[..] == old(rays[..])
      decreases 1 - flips
    {
      g := Neg(g);
      flips := flips + 1;
      a0 := NormalisationPositive(sqrt, g);
      a := sqrt(1.0 - Times(g.z, g.z));
      RotationIsFrame(n, g, a);
      rows := RotationRows(n, g, a);
      xxi1 := Dot(i, rows.0);
    }
    var xxi3 := Dot(i, rows.2);
    var xxo1 := OrderShift(m, wave, d) + xxi1;
    var xxo3 := xxi3;
    var xxo2 := sqrt(1.0 - Times(xxo1, xxo1) - Times(xxo3, xxo3));
    var o := Combine(rows.0, rows.1, rows.2, xxo1, xxo2, xxo3);
    rays[j] := rays[j].Towards(o);
    forall u | Obeys(u, i, m, wave, d, n, g0)
      ensures u == Diffracted(sqrt, OrderShift(m, wave, d), i, n, g0)
    {
      GratingEquation(sqrt, m, wave, d, i, n, g0, u);
    }
    InZeroOrder(sqrt, m, wave, d, i, n, g0);
  }

  lemma InZeroOrder(sqrt: SquareRoot, m: real, wave: real, d: real, i: Vec, n: Vec, g: Vec)
    requires Exact(sqrt) && Orthonormal(n, g) && d != 0.0
    ensures m == 0.0 && Unit(i) && Dot(i, n) <= 0.0 ==>
              Diffracted(sqrt, OrderShift(m, wave, d), i, n, g) == Mirror(i, n)
  {
    if m == 0.0 && Unit(i) && Dot(i, n) <= 0.0 {
      NoShift(m, wave, d);
      ZeroOrderMirrors(sqrt, i, n, g);
    }
  }

  lemma NoShift(m: real, wave: real, d: real)
    requires m == 0.0 && d != 0.0
    ensures OrderShift(m, wave, d) == 0.0
  {
    assert m * wave == 0.0;
  }

  /** The grating equation: there is at most one direction that obeys the law, and it is the one that is
      computed; if there is none, the root is of a negative number. */
  lemma GratingEquation(sqrt: SquareRoot, m: real, wave: real, d: real, i: Vec, n: Vec, g: Vec, o: Vec)
    requires Exact(sqrt) && Orthonormal(n, g) && d != 0.0
    ensures Obeys(o, i, m, wave, d, n, g)
       <==> var k := OrderShift(m, wave, d);
            Discriminant(k, i, n, g) >= 0.0 && o == Diffracted(sqrt, k, i, n, g)
  {
    var k, h := OrderShift(m, wave, d), Oriented(i, n, g);
    OrientedFrame(i, n, g);
    ObeysTurned(o, i, m, wave, d, n, g);
    ShiftGained(m, wave, d, Dot(o, Cross(n, h)) - Dot(i, Cross(n, h)));
    if Obeys(o, i, m, wave, d, n, g) {
      OnlyOne(sqrt, k, i, n, h, o);
    }
    if Discriminant(k, i, n, g) >= 0.0 && o == Diffracted(sqrt, k, i, n, g) {
      DiffractedGains(sqrt, k, i, n, g);
    }
  }

  /** The law for the turned groove vector. */
  lemma ObeysTurned(o: Vec, i: Vec, m: real, wave: real, d: real, n: Vec, g: Vec)
    ensures var h := Oriented(i, n, g);
            Obeys(o, i, m, wave, d, n, g) <==>
              && Unit(o) && Dot(o, n) >= 0.0 && Dot(o, h) == Dot(i, h)
              && Times(d, Dot(o, Cross(n, h)) - Dot(i, Cross(n, h))) == Times(m, wave)
  {
    NegCross(n, g);
    NegDot(o, g);
    NegDot(i, g);
  }

  lemma ShiftGained(m: real, wave: real, d: real, gain: real)
    requires d != 0.0
    ensures Times(d, gain) == Times(m, wave) <==> gain == OrderShift(m, wave, d)
  {
    DivTimes(m * wave, d);
    TimesSwaps(d, OrderShift(m, wave, d));
    if Times(d, gain) == Times(m, wave) {
      Cancel(d, gain, OrderShift(m, wave, d));
    }
  }

  lemma OnlyOne(sqrt: SquareRoot, k: real, i: Vec, n: Vec, h: Vec, o: Vec)
    requires Exact(sqrt) && Orthonormal(n, h) && Unit(o) && Dot(o, n) >= 0.0
    requires Dot(o, h) == Dot(i, h) && Dot(o, Cross(n, h)) == k + Dot(i, Cross(n, h))
    ensures var x1, x3 := k + Dot(i, Cross(n, h)), Dot(i, h);
            && 1.0 - Times(x1, x1) - Times(x3, x3) >= 0.0
            && o == Combine(Cross(n, h), n, h, x1, sqrt(1.0 - Times(x1, x1) - Times(x3, x3)), x3)
  {
    var x1, x2, x3 := Dot(o, Cross(n, h)), Dot(o, n), Dot(o, h);
    FrameComplete(o, n, h);
    Frame(n, h);
    CombineDots(Cross(n, h), n, h, x1, x2, x3);
    SquareNonNeg(x2);
    RootSquared(sqrt, Times(x2, x2));
    SquaresEqual(sqrt(Times(x2, x2)), x2);
  }

  /** The law for the shift k. */
  lemma DiffractedGains(sqrt: SquareRoot, k: real, i: Vec, n: Vec, g: Vec)
    requires Exact(sqrt) && Orthonormal(n, g) && Discriminant(k, i, n, g) >= 0.0
    ensures var o, h := Diffracted(sqrt, k, i, n, g), Oriented(i, n, g);
            && Unit(o) && Dot(o, n) >= 0.0 && Dot(o, h) == Dot(i, h)
            && Dot(o, Cross(n, h)) == Dot(i, Cross(n, h)) + k
  {
    var h, o := Oriented(i, n, g), Diffracted(sqrt, k, i, n, g);
    var b := Cross(n, h);
    OrientedFrame(i, n, g);
    Frame(n, h);
    var x1, x2, x3 := k + Dot(i, b), sqrt(Discriminant(k, i, n, g)), Dot(i, h);
    RootSquared(sqrt, Discriminant(k, i, n, g));
    CombineDots(b, n, h, x1, x2, x3);
  }

  /** There is an outgoing ray if and only if the component across the grooves that the law demands and the
      one along them are not too long for a unit vector. */
  lemma OutgoingExists(sqrt: SquareRoot, m: real, wave: real, d: real, i: Vec, n: Vec, g: Vec, x1: real)
    requires Exact(sqrt) && Orthonormal(n, g) && d != 0.0
    requires var b := if Dot(i, Cross(n, g)) < 0.0 then Neg(Cross(n, g)) else Cross(n, g);
             Times(d, x1 - Dot(i, b)) == Times(m, wave)
    ensures (exists o :: Obeys(o, i, m, wave, d, n, g)) <==> Times(x1, x1) + Times(Dot(i, g), Dot(i, g)) <= 1.0
  {
    var k, h := OrderShift(m, wave, d), Oriented(i, n, g);
    NegCross(n, g);
    NegDot(i, g);
    NegTimes(Dot(i, g), Dot(i, g));
    ShiftGained(m, wave, d, x1 - Dot(i, Cross(n, h)));
    assert Discriminant(k, i, n, g) == 1.0 - Times(x1, x1) - Times(Dot(i, g), Dot(i, g));
    GratingEquation(sqrt, m, wave, d, i, n, g, Diffracted(sqrt, k, i, n, g));
    if o :| Obeys(o, i, m, wave, d, n, g) {
      GratingEquation(sqrt, m, wave, d, i, n, g, o);
    }
  }

  /** The turned groove vector is as good as g, and the ray does not run against its n x g. */
  lemma OrientedFrame(i: Vec, n: Vec, g: Vec)
    requires Orthonormal(n, g)
    ensures Orthonormal(n, Oriented(i, n, g)) && Dot(i, Cross(n, Oriented(i, n, g))) >= 0.0
  {
    NegCross(n, g);
    NegDot(n, g);
    NegBoth(g, g);
    NegDot(i, Cross(n, g));
  }

  /** Which of the two groove vectors g and -g is passed does not matter, unless the ray has no
      component along n x g and the order moves it. */
  lemma GrooveSign(sqrt: SquareRoot, k: real, i: Vec, n: Vec, g: Vec)
    requires Orthonormal(n, g)
    ensures Diffracted(sqrt, k, i, n, Neg(g)) == Diffracted(sqrt, k, i, n, g)
      <==> Dot(i, Cross(n, g)) != 0.0 || k == 0.0
  {
    if Dot(i, Cross(n, g)) != 0.0 {
      SameOrientation(i, n, g);
    } else {
      OppositeOrientation(i, n, g);
      var b, x3 := Cross(n, g), Dot(i, g);
      TwoDirections(b, n, g, k, sqrt(1.0 - Times(k, k) - Times(x3, x3)), x3);
      DiffractedAlong(sqrt, k, i, n, g, g);
      DiffractedAlong(sqrt, k, i, n, Neg(g), Neg(g));
      NegProducts(n, g, i);
      assert Times(-x3, -x3) == Times(x3, x3);
    }
  }

  /** A ray along the normal is diffracted in every order with |k| <= 1, and to two different sides. */
  lemma NormalIncidence(sqrt: SquareRoot, k: real, n: Vec, g: Vec)
    requires Orthonormal(n, g) && k != 0.0 && Times(k, k) <= 1.0
    ensures Unit(Neg(n)) && Dot(Neg(n), Cross(n, g)) == 0.0
    ensures Discriminant(k, Neg(n), n, g) >= 0.0 && Discriminant(k, Neg(n), n, Neg(g)) >= 0.0
    ensures Diffracted(sqrt, k, Neg(n), n, Neg(g)) != Diffracted(sqrt, k, Neg(n), n, g)
  {
    var i, b := Neg(n), Cross(n, g);
    Frame(n, g);
    OfNormal(n, b);
    OfNormal(n, g);
    OfNormal(n, n);
    GrooveSign(sqrt, k, i, n, g);
    OppositeOrientation(i, n, g);
    NegDot(i, g);
    assert Times(0.0, 0.0) == 0.0 && Times(-0.0, -0.0) == 0.0 && Times(k + 0.0, k + 0.0) == Times(k, k);
  }

  lemma OfNormal(n: Vec, q: Vec)
    ensures Dot(Neg(n), q) == -Dot(q, n) && Dot(Neg(n), Neg(q)) == Dot(q, n)
  {
    NegBoth(n, q);
    DotSwaps(n, q);
  }

  /** A ray straight down, in an order that shifts it by 0.6, goes to the side of n x g. */
  lemma StraightDown(sqrt: SquareRoot, i: Vec, n: Vec, g: Vec, b: Vec)
    requires Exact(sqrt) && i == Vec(0.0, 0.0, -1.0) && n == Vec(0.0, 0.0, 1.0)
    requires (g.y == 1.0 || g.y == -1.0) && g == Vec(0.0, g.y, 0.0) && b == Vec(-g.y, 0.0, 0.0)
    ensures Cross(n, g) == b && Diffracted(sqrt, 0.6, i, n, g) == Vec(0.6 * b.x, 0.0, 0.8)
  {
    StraightProducts(i, n, g, b);
    var d := 1.0 - Times(0.6, 0.6) - Times(0.0, 0.0);
    RootOf(sqrt, d);
    DiffractedDown(sqrt, i, n, g, b, d);
    Coordinates(b, g);
  }

  lemma StraightProducts(i: Vec, n: Vec, g: Vec, b: Vec)
    requires i == Vec(0.0, 0.0, -1.0) && n == Vec(0.0, 0.0, 1.0)
    requires g == Vec(0.0, g.y, 0.0) && b == Vec(-g.y, 0.0, 0.0)
    ensures Cross(n, g) == b && Dot(i, b) == 0.0 && Dot(i, g) == 0.0
  {}

  lemma RootOf(sqrt: SquareRoot, d: real)
    requires Exact(sqrt) && d == 1.0 - Times(0.6, 0.6) - Times(0.0, 0.0)
    ensures sqrt(d) == 0.8
  {
    assert Times(0.8, 0.8) == d && Times(sqrt(d), sqrt(d)) == d;
    SquaresEqual(sqrt(d), 0.8);
  }

  lemma DiffractedDown(sqrt: SquareRoot, i: Vec, n: Vec, g: Vec, b: Vec, d: real)
    requires Cross(n, g) == b && Dot(i, b) == 0.0 && Dot(i, g) == 0.0
    requires d == 1.0 - Times(0.6, 0.6) - Times(0.0, 0.0)
    ensures Diffracted(sqrt, 0.6, i, n, g) == Combine(b, n, g, 0.6, sqrt(d), 0.0)
  {
    DiffractedAlong(sqrt, 0.6, i, n, g, g);
  }

  lemma Coordinates(b: Vec, g: Vec)
    requires g.x == 0.0 && g.z == 0.0 && b.y == 0.0 && b.z == 0.0
    ensures Combine(b, Vec(0.0, 0.0, 1.0), g, 0.6, 0.8, 0.0) == Vec(0.6 * b.x, 0.0, 0.8)
  {}

  lemma SameOrientation(i: Vec, n: Vec, g: Vec)
    requires Dot(i, Cross(n, g)) != 0.0
    ensures Oriented(i, n, Neg(g)) == Oriented(i, n, g)
  {
    NegProducts(n, g, i);
    NegDot(i, Cross(n, g));
    assert Neg(Neg(g)) == g;
  }

  lemma OppositeOrientation(i: Vec, n: Vec, g: Vec)
    requires Dot(i, Cross(n, g)) == 0.0
    ensures Oriented(i, n, Neg(g)) == Neg(g) && Oriented(i, n, g) == g && Dot(i, Cross(n, Neg(g))) == 0.0
  {
    NegProducts(n, g, i);
    NegDot(i, Cross(n, g));
  }

  /** The direction for a ray without a component along n x h. */
  lemma DiffractedAlong(sqrt: SquareRoot, k: real, i: Vec, n: Vec, g: Vec, h: Vec)
    requires Oriented(i, n, g) == h && Dot(i, Cross(n, h)) == 0.0
    ensures Diffracted(sqrt, k, i, n, g)
         == Combine(Cross(n, h), n, h, k, sqrt(1.0 - Times(k, k) - Times(Dot(i, h), Dot(i, h))), Dot(i, h))
  {
    assert k + Dot(i, Cross(n, h)) == k;
  }

  lemma TwoDirections(b: Vec, n: Vec, g: Vec, k: real, x2: real, x3: real)
    requires Orthonormal(n, g) && b == Cross(n, g)
    ensures Combine(Neg(b), n, Neg(g), k, x2, -x3) == Combine(b, n, g, k, x2, x3) <==> k == 0.0
  {
    var o, p := Combine(b, n, g, k, x2, x3), Combine(Neg(b), n, Neg(g), k, x2, -x3);
    MirroredCombination(b, n, g, k, x2, x3);
    Frame(n, g);
    ScaleDot(2.0 * k, b, b);
    NoDifference(o, p, Scale(2.0 * k, b));
    if k == 0.0 {
      ZeroScale(b);
    } else {
      NonZeroDot(Scale(2.0 * k, b), b);
    }
  }

  lemma NoDifference(o: Vec, p: Vec, d: Vec)
    requires Minus(o, p) == d
    ensures p == o <==> d == Vec(0.0, 0.0, 0.0)
  {}

  lemma ZeroScale(b: Vec)
    ensures Scale(2.0 * 0.0, b) == Vec(0.0, 0.0, 0.0)
  {}

  lemma NonZeroDot(d: Vec, b: Vec)
    requires Dot(d, b) != 0.0
    ensures d != Vec(0.0, 0.0, 0.0)
  {}

  lemma ScaleDot(k: real, u: Vec, w: Vec)
    ensures Dot(Scale(k, u), w) == Times(k, Dot(u, w))
  {}

  lemma MirroredCombination(b: Vec, n: Vec, g: Vec, k: real, x2: real, x3: real)
    ensures Minus(Combine(b, n, g, k, x2, x3), Combine(Neg(b), n, Neg(g), k, x2, -x3)) == Scale(2.0 * k, b)
  {
    NegCoordinate(k, b.x, x3, g.x);
    NegCoordinate(k, b.y, x3, g.y);
    NegCoordinate(k, b.z, x3, g.z);
  }

  lemma NegCoordinate(k: real, b: real, x: real, g: real)
    ensures Times(k, -b) == -Times(k, b) && Times(-x, -g) == Times(x, g) && Times(2.0 * k, b) == 2.0 * Times(k, b)
  {}

  /** In order zero the grating gives the direction of raytrace_reflect. */
  lemma ZeroOrder(sqrt: SquareRoot, i: Vec, n: Vec, g: Vec)
    requires Exact(sqrt) && Orthonormal(n, g) && Unit(i) && Dot(i, n) <= 0.0 && n.z != 0.0
    ensures Diffracted(sqrt, 0.0, i, n, g) == Reflected(i, n)
  {
    ZeroOrderMirrors(sqrt, i, n, g);
    ReflectedIsMirror(i, n);
  }

  /** In order zero the grating is a mirror. */
  lemma ZeroOrderMirrors(sqrt: SquareRoot, i: Vec, n: Vec, g: Vec)
    requires Exact(sqrt) && Orthonormal(n, g) && Unit(i) && Dot(i, n) <= 0.0
    ensures Diffracted(sqrt, 0.0, i, n, g) == Mirror(i, n)
  {
    var h := Oriented(i, n, g);
    var b := Cross(n, h);
    NegProducts(n, g, i);
    NegProducts(n, g, n);
    FrameComplete(i, n, h);
    Frame(n, h);
    CombineDots(b, n, h, Dot(i, b), Dot(i, n), Dot(i, h));
    var c := Dot(i, n);
    assert Discriminant(0.0, i, n, g) == Times(c, c);
    SquareNonNeg(c);
    var s := sqrt(Times(c, c));
    assert Times(s, s) == Times(c, c) && Times(-c, -c) == Times(c, c);
    SquaresEqual(s, -c);
    MirrorInFrame(i, b, n, h, Dot(i, b), c, Dot(i, h));
  }

  lemma MirrorInFrame(i: Vec, b: Vec, n: Vec, h: Vec, x1: real, c: real, x3: real)
    requires i == Combine(b, n, h, x1, c, x3) && c == Dot(i, n)
    ensures Mirror(i, n) == Combine(b, n, h, x1, -c, x3)
  {
    MirrorCoordinates(i, n);
    assert forall y: real :: Times(-c, y) == -Times(c, y);
  }
}
