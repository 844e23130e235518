/** The boundary rays of a camera, shortened by one obstacle after another. */
module CameraRays {
  import opened Reals
  import opened Vectors
  import opened Obstruction

  /** A ray after it has met some circles, first to last. */
  ghost function Fold(root: Root, cs: seq<Circle>, origin: Vec, v: Vec, slide: bool, outer: bool): Vec
    requires IsRoot(root) && forall c :: c in cs ==> 0.0 <= c.radius
  {
    if cs == [] then v
    else Obstructed(root, cs[|cs| - 1], origin, Fold(root, cs[..|cs| - 1], origin, v, slide, outer), slide, outer)
  }

  /** The least of the length of the ray and the distances at which its line crosses
      the circles. */
  ghost function Shortest(root: Root, cs: seq<Circle>, origin: Vec, v: Vec, outer: bool): real
    requires IsRoot(root) && v != ZERO
  {
    if cs == [] then Norm(root, v)
    else
      var c := cs[|cs| - 1];
      var rel := c.center.Minus(origin);
      var before := Shortest(root, cs[..|cs| - 1], origin, v, outer);
      if Crosses(root, c, rel, v) then Min(before, Crossing(root, c, rel, v, outer)) else before
  }

  /** The origin is not strictly inside any of the circles. */
  ghost predicate AllOutside(root: Root, cs: seq<Circle>, origin: Vec) {
    forall c :: c in cs ==> 0.0 <= c.radius <= Norm(root, c.center.Minus(origin))
  }

  lemma ScaledDot(rel: Vec, v: Vec, k: real)
    ensures rel.Dot(v.Times(k)) == Mul(k, rel.Dot(v))
  {
  }

  lemma ScaledZero(v: Vec, k: real)
    ensures v.Times(0.0) == ZERO
    ensures v != ZERO && 0.0 < k ==> v.Times(k) != ZERO
  {
    if v != ZERO && 0.0 < k {
      NotZero(v);
    }
  }

  /** Where the line of a ray crosses a circle does not depend on the length of the ray. */
  lemma CrossingIgnoresLength(root: Root, c: Circle, rel: Vec, v: Vec, k: real, outer: bool)
    requires IsRoot(root) && v != ZERO && 0.0 < k
    ensures v.Times(k) != ZERO
    ensures Along(root, rel, v.Times(k)) == Along(root, rel, v)
    ensures Crosses(root, c, rel, v.Times(k)) <==> Crosses(root, c, rel, v)
    ensures Crossing(root, c, rel, v.Times(k), outer) == Crossing(root, c, rel, v, outer)
  {
    hide Mul, Quot, Norm, IsRoot, Vec.Times, Vec.Square, Vec.Dot, Along;
    ScaledZero(v, k);
    var w := v.Times(k);
    NormOfTimes(root, v, k);
    ScaledDot(rel, v, k);
    AlongFacts(root, rel, v);
    AlongFacts(root, rel, w);
    var d, n := Along(root, rel, v), Norm(root, v);
    MulTriple(d, k, n);
    AlongIs(root, rel, w, d);
    if 0.0 <= rel.Dot(v) {
      MulNatural(k, rel.Dot(v));
    } else {
      MulPositive(k, -rel.Dot(v));
      MulSigns(k, 1.0, rel.Dot(v));
    }
  }

  lemma AlongIs(root: Root, rel: Vec, v: Vec, d: real)
    requires IsRoot(root) && v != ZERO && Mul(d, Norm(root, v)) == rel.Dot(v)
    ensures Along(root, rel, v) == d
  {
    hide Mul, Quot, Norm, IsRoot, Vec.Dot;
    NormFacts(root, v);
    QuotUnique(d, rel.Dot(v), Norm(root, v));
  }

  lemma NearestPoint(d: real, h: real, r: real, p: real, m: real)
    requires 0.0 <= h <= d && h <= r && Mul(h, h) == Mul(r, r) - p + Mul(d, d) && 0.0 <= m && Mul(m, m) == p
    ensures m <= d - h + r
  {
    hide Mul;
    var s := d - h;
    ExpandNearest(s, h, r);
    MulOrder(h, r, s);
    MulCommutes(r, s);
    MulCommutes(h, s);
    assert d == s + h;
    RootOrder(m, s + r);
  }

  lemma ExpandNearest(s: real, h: real, r: real)
    ensures Mul(s + h, s + h) - Mul(h, h) == Mul(s, s) + 2.0 * Mul(s, h)
    ensures Mul(s + r, s + r) == Mul(s, s) + 2.0 * Mul(s, r) + Mul(r, r)
  {
  }

  /** No crossing is nearer than the nearest point of the circle. */
  lemma CrossingIsFar(root: Root, c: Circle, rel: Vec, v: Vec, outer: bool)
    requires IsRoot(root) && v != ZERO && 0.0 <= c.radius <= Norm(root, rel) && Crosses(root, c, rel, v)
    ensures 0.0 <= Norm(root, rel) - c.radius <= Crossing(root, c, rel, v, outer)
  {
    hide Mul, Norm, IsRoot, Vec.Square, Vec.Dot, Along, HalfChord, Crosses;
    HalfChordFacts(root, c, rel, v);
    NearCrossing(root, c, rel, v);
    NormFacts(root, rel);
    NearestPoint(Along(root, rel, v), HalfChord(root, c, rel, v), c.radius, rel.Square(), Norm(root, rel));
  }

  lemma TimesTimes(v: Vec, a: real, b: real)
    ensures v.Times(a).Times(b) == v.Times(Mul(b, a))
  {
  }

  /** One circle turns a ray of length m in a given direction into one of length
      min(m, crossing) in the same direction. */
  lemma ObstructedIsMin(root: Root, c: Circle, origin: Vec, v: Vec, m: real, outer: bool)
    requires IsRoot(root) && v != ZERO && 0.0 <= m
    requires 0.0 <= c.radius <= Norm(root, c.center.Minus(origin))
    ensures var rel := c.center.Minus(origin);
      var least := if Crosses(root, c, rel, v) then Min(m, Crossing(root, c, rel, v, outer)) else m;
      Obstructed(root, c, origin, Shortened(root, v, m), false, outer) == Shortened(root, v, least)
  {
    hide Mul, Quot, Norm, IsRoot, Vec.Times, Vec.Square, Vec.Dot, Vec.Minus, Along, HalfChord, Crosses, Crossing, Shortened, Vec.Negated;
    var rel := c.center.Minus(origin);
    ShortenedFacts(root, v, m);
    var w := Shortened(root, v, m);
    var n := Norm(root, v);
    var a := Quot(m, n);
    NormFacts(root, w);
    EmptyRay(rel);
    CrossingIsNatural(root, c, rel, v, outer);
    if 0.0 < m {
      if a == 0.0 {
        MulZero(n);
      }
      CrossingIgnoresLength(root, c, rel, v, a, outer);
      if Crosses(root, c, rel, v) {
        CrossingIsFar(root, c, rel, v, outer);
        ShortenedTwice(root, v, m, Crossing(root, c, rel, v, outer));
      }
    }
  }

  lemma CrossingIsNatural(root: Root, c: Circle, rel: Vec, v: Vec, outer: bool)
    requires IsRoot(root) && v != ZERO
    ensures 0.0 <= Crossing(root, c, rel, v, outer)
  {
    hide Along, HalfChord;
  }

  lemma ShortenedTwice(root: Root, v: Vec, m: real, s: real)
    requires IsRoot(root) && v != ZERO && 0.0 < m && 0.0 <= s
    ensures Shortened(root, v, m) != ZERO
    ensures Shortened(root, Shortened(root, v, m), s) == Shortened(root, v, s)
  {
    hide Mul, Quot, Norm, IsRoot, Vec.Times, Shortened;
    ShortenedFacts(root, v, m);
    ShortenedFacts(root, v, s);
    var w, n := Shortened(root, v, m), Norm(root, v);
    NormFacts(root, w);
    ShortenedFacts(root, w, s);
    var a, b := Quot(m, n), Quot(s, m);
    TimesTimes(v, a, b);
    MulTriple(b, a, n);
    QuotUnique(Mul(b, a), s, n);
  }

  lemma ShortestIsNatural(root: Root, cs: seq<Circle>, origin: Vec, v: Vec, outer: bool)
    requires IsRoot(root) && v != ZERO
    ensures 0.0 <= Shortest(root, cs, origin, v, outer) <= Norm(root, v)
  {
    hide Norm, IsRoot, Crosses, Crossing;
    if cs == [] {
      NormFacts(root, v);
    } else {
      var c := cs[|cs| - 1];
      ShortestIsNatural(root, cs[..|cs| - 1], origin, v, outer);
      CrossingIsNatural(root, c, c.center.Minus(origin), v, outer);
    }
  }

  lemma WholeRay(root: Root, v: Vec)
    requires IsRoot(root) && v != ZERO
    ensures Shortened(root, v, Norm(root, v)) == v
  {
    hide Mul, Quot, Norm, IsRoot, Vec.Times;
    NormFacts(root, v);
    ExpandSecond(1.0, 1.0, Norm(root, v));
    QuotUnique(1.0, Norm(root, v), Norm(root, v));
    TimesOne(v);
  }

  /** Shortening a ray by any circles gives the ray of the same direction whose length is the
      least of the old length and all crossing distances. */
  lemma {:induction false} FoldIsShortest(root: Root, cs: seq<Circle>, origin: Vec, v: Vec, outer: bool)
    requires IsRoot(root) && v != ZERO && AllOutside(root, cs, origin)
    ensures Fold(root, cs, origin, v, false, outer) == Shortened(root, v, Shortest(root, cs, origin, v, outer))
  {
    hide Norm, IsRoot, Crosses, Crossing, Obstructed, Shortened, Vec.Minus;
    if cs == [] {
      WholeRay(root, v);
    } else {
      var before := cs[..|cs| - 1];
      FoldIsShortest(root, before, origin, v, outer);
      ShortestIsNatural(root, before, origin, v, outer);
      ObstructedIsMin(root, cs[|cs| - 1], origin, v, Shortest(root, before, origin, v, outer), outer);
    }
  }

  /** The shortest distance is a lower bound and is attained, so it depends on the circles
      alone and not on their order. */
  lemma {:induction false} ShortestIsLeast(root: Root, cs: seq<Circle>, origin: Vec, v: Vec, outer: bool)
    requires IsRoot(root) && v != ZERO
    ensures var m := Shortest(root, cs, origin, v, outer);
      && m <= Norm(root, v)
      && (forall c :: c in cs && Crosses(root, c, c.center.Minus(origin), v) ==> m <= Crossing(root, c, c.center.Minus(origin), v, outer))
      && (m == Norm(root, v)
          || exists c :: c in cs && Crosses(root, c, c.center.Minus(origin), v) && m == Crossing(root, c, c.center.Minus(origin), v, outer))
  {
    hide Norm, IsRoot, Crosses, Crossing, Vec.Minus;
    if cs != [] {
      ShortestIsLeast(root, cs[..|cs| - 1], origin, v, outer);
      assert cs == cs[..|cs| - 1] + [cs[|cs| - 1]];
    }
  }

  lemma {:induction false} EmptyStaysEmpty(root: Root, cs: seq<Circle>, origin: Vec, outer: bool)
    requires IsRoot(root) && forall c :: c in cs ==> 0.0 <= c.radius
    ensures Fold(root, cs, origin, ZERO, false, outer) == ZERO
  {
    hide Norm, IsRoot, Crosses, Crossing, Shortened, Vec.Minus, Vec.Negated;
    EmptyRay(ZERO);
    if cs != [] {
      EmptyStaysEmpty(root, cs[..|cs| - 1], origin, outer);
    }
  }

  /** The shortened ray does not depend on the order in which the circles are met, nor on
      how often one of them is listed. */
  lemma OrderDoesNotMatter(root: Root, cs: seq<Circle>, cs': seq<Circle>, origin: Vec, v: Vec, outer: bool)
    requires IsRoot(root) && AllOutside(root, cs, origin)
    requires forall c :: c in cs <==> c in cs'
    ensures Fold(root, cs, origin, v, false, outer) == Fold(root, cs', origin, v, false, outer)
  {
    hide Norm, IsRoot, Crosses, Crossing, Shortened, Obstructed, Fold, Shortest;
    if v == ZERO {
      EmptyStaysEmpty(root, cs, origin, outer);
      EmptyStaysEmpty(root, cs', origin, outer);
    } else {
      FoldIsShortest(root, cs, origin, v, outer);
      FoldIsShortest(root, cs', origin, v, outer);
      ShortestIsLeast(root, cs, origin, v, outer);
      ShortestIsLeast(root, cs', origin, v, outer);
    }
  }

  /** No point of a ray shortened along the near sides lies in any of the open discs. */
  lemma InnerRayStaysOutside(root: Root, cs: seq<Circle>, origin: Vec, v: Vec, c: Circle, t: real)
    requires IsRoot(root) && AllOutside(root, cs, origin) && c in cs && 0.0 <= t <= 1.0
    ensures var point := origin.Plus(Fold(root, cs, origin, v, false, false).Times(t));
      c.radius <= Norm(root, point.Minus(c.center))
  {
    hide Norm, IsRoot, Mul, Quot, Crosses, Crossing, Shortened, Obstructed, Fold, Shortest, Vec.Plus, Vec.Minus, Vec.Times, Vec.Square, Meet;
    var w := Fold(root, cs, origin, v, false, false).Times(t);
    var rel := c.center.Minus(origin);
    EndpointFromCenter(origin, w, c.center);
    if v == ZERO {
      EmptyStaysEmpty(root, cs, origin, false);
      TimesOfZero(t);
      EmptyIsOutside(root, c, rel);
    } else {
      var m := Shortest(root, cs, origin, v, false);
      FoldIsShortest(root, cs, origin, v, false);
      ShortestIsLeast(root, cs, origin, v, false);
      ShortestIsNatural(root, cs, origin, v, false);
      PartOfRay(root, v, m, t);
      MulNatural(t, m);
      MulOrder(t, 1.0, m);
      ExpandSecond(1.0, 1.0, m);
      PartIsOutside(root, c, rel, v, Mul(t, m));
    }
    NormFacts(root, w.Minus(rel));
    RootOrder(c.radius, Norm(root, w.Minus(rel)));
  }

  lemma TimesOfZero(t: real)
    ensures ZERO.Times(t) == ZERO
  {
  }

  lemma EmptyIsOutside(root: Root, c: Circle, rel: Vec)
    requires IsRoot(root) && 0.0 <= c.radius <= Norm(root, rel)
    ensures Mul(c.radius, c.radius) <= ZERO.Minus(rel).Square()
  {
    hide Norm, IsRoot, Mul, Vec.Square, Vec.Minus, Vec.Negated;
    EmptyRay(rel);
    NormFacts(root, rel);
    RootOrder(c.radius, Norm(root, rel));
  }

  lemma PartOfRay(root: Root, v: Vec, m: real, t: real)
    requires IsRoot(root) && v != ZERO && 0.0 <= m && 0.0 <= t
    ensures Shortened(root, v, m).Times(t) == Shortened(root, v, Mul(t, m))
  {
    hide Mul, Quot, Norm, IsRoot, Vec.Times, Shortened;
    var n := Norm(root, v);
    ShortenedFacts(root, v, m);
    MulNatural(t, m);
    ShortenedFacts(root, v, Mul(t, m));
    TimesTimes(v, Quot(m, n), t);
    MulTriple(t, Quot(m, n), n);
    QuotUnique(Mul(t, Quot(m, n)), Mul(t, m), n);
  }

  /** A ray that ends before the near crossing ends outside. */
  lemma PartIsOutside(root: Root, c: Circle, rel: Vec, v: Vec, s: real)
    requires IsRoot(root) && v != ZERO && 0.0 <= s && 0.0 <= c.radius <= Norm(root, rel)
    requires Crosses(root, c, rel, v) ==> s <= Crossing(root, c, rel, v, false)
    ensures Mul(c.radius, c.radius) <= Shortened(root, v, s).Minus(rel).Square()
  {
    hide Mul, Quot, Norm, IsRoot, Vec.Times, Vec.Square, Vec.Minus, Shortened, Crosses, Crossing;
    var w := Shortened(root, v, s);
    ShortenedFacts(root, v, s);
    NormFacts(root, w);
    if w == ZERO {
      EmptyIsOutside(root, c, rel);
    } else {
      var a := Quot(s, Norm(root, v));
      MulZero(Norm(root, v));
      CrossingIgnoresLength(root, c, rel, v, a, false);
      FreeEndsOutside(root, c, rel, w);
    }
  }

  // ------------------------------------------------------- what a crossing is

  lemma CrossingIdentity(d: real, s: real)
    ensures Mul(s, s) - 2.0 * Mul(d, s) == Mul(s - d, s - d) - Mul(d, d)
  {
  }

  /** The crossing distances, near and far, are those of points on the circle. */
  lemma CrossingIsOnCircle(root: Root, c: Circle, rel: Vec, v: Vec, outer: bool)
    requires IsRoot(root) && v != ZERO && 0.0 <= c.radius <= Norm(root, rel) && Crosses(root, c, rel, v)
    ensures Shortened(root, v, Crossing(root, c, rel, v, outer)).Minus(rel).Square() == Mul(c.radius, c.radius)
  {
    hide Mul, Quot, Norm, IsRoot, Vec.Times, Vec.Square, Vec.Dot, Vec.Minus, Shortened, Crosses, Along, HalfChord, Crossing;
    var s, d, h, n := Crossing(root, c, rel, v, outer), Along(root, rel, v), HalfChord(root, c, rel, v), Norm(root, v);
    CrossingIsNatural(root, c, rel, v, outer);
    NearCrossing(root, c, rel, v);
    HalfChordFacts(root, c, rel, v);
    ShortenedFacts(root, v, s);
    NormFacts(root, v);
    AlongFacts(root, rel, v);
    var a := Quot(s, n);
    RadiusIdentity(v, rel, a);
    MulOfMul(a, n);
    MulTriple(a, d, n);
    CrossingIdentity(d, s);
    MulNegatedSquare(h);
  }

  /** The line of a ray that starts outside a circle crosses it exactly when some point
      ahead lies strictly inside. */
  lemma CrossesMeansInside(root: Root, c: Circle, rel: Vec, v: Vec)
    requires IsRoot(root) && v != ZERO && 0.0 <= c.radius <= Norm(root, rel)
    ensures Crosses(root, c, rel, v)
      <==> exists s: real :: 0.0 <= s && Shortened(root, v, s).Minus(rel).Square() < Mul(c.radius, c.radius)
  {
    hide Mul, Quot, Norm, IsRoot, Vec.Times, Vec.Square, Vec.Dot, Vec.Minus, Shortened, Along;
    if Crosses(root, c, rel, v) {
      AlongFacts(root, rel, v);
      ClosestPoint(root, rel, v);
      assert Shortened(root, v, Along(root, rel, v)).Minus(rel).Square() < Mul(c.radius, c.radius);
    } else {
      forall s: real | 0.0 <= s
        ensures Mul(c.radius, c.radius) <= Shortened(root, v, s).Minus(rel).Square()
      {
        PartIsOutside(root, c, rel, v, s);
      }
    }
  }

  lemma ClosestPoint(root: Root, rel: Vec, v: Vec)
    requires IsRoot(root) && v != ZERO && 0.0 <= Along(root, rel, v)
    ensures Shortened(root, v, Along(root, rel, v)).Minus(rel).Square() == AsideSquare(root, rel, v)
  {
    hide Mul, Quot, Norm, IsRoot, Vec.Times, Vec.Square, Vec.Dot, Vec.Minus, Shortened, Along;
    var d, n := Along(root, rel, v), Norm(root, v);
    ShortenedFacts(root, v, d);
    NormFacts(root, v);
    AlongFacts(root, rel, v);
    var a := Quot(d, n);
    RadiusIdentity(v, rel, a);
    MulOfMul(a, n);
    MulTriple(a, d, n);
  }
}
