/** What meeting a circle means in the plane, said of the points of a ray and without any of
    the numbers the program computes. */
module CircleGeometry {
  import opened Reals
  import opened Vectors
  import opened Obstruction
  import opened CameraRays

  /** The point, seen from the origin of the ray, lies in the open disc around rel. */
  predicate InDisc(c: Circle, rel: Vec, p: Vec) {
    p.Minus(rel).Square() < Mul(c.radius, c.radius)
  }

  predicate OnCircle(c: Circle, rel: Vec, p: Vec) {
    p.Minus(rel).Square() == Mul(c.radius, c.radius)
  }

  /** Some point of the ray lies in the disc. */
  ghost predicate Enters(c: Circle, rel: Vec, v: Vec) {
    exists t: real :: 0.0 <= t <= 1.0 && InDisc(c, rel, v.Times(t))
  }

  /** The ray meets the circle at a for the first time. */
  ghost predicate FirstContact(c: Circle, rel: Vec, v: Vec, a: real) {
    && 0.0 <= a < 1.0 && OnCircle(c, rel, v.Times(a))
    && forall t: real :: 0.0 <= t <= a ==> !InDisc(c, rel, v.Times(t))
  }

  /** The ray has been in the disc and leaves it for good at a. */
  ghost predicate LastContact(c: Circle, rel: Vec, v: Vec, a: real) {
    && 0.0 <= a < 1.0 && OnCircle(c, rel, v.Times(a))
    && (exists t: real :: 0.0 <= t <= a && InDisc(c, rel, v.Times(t)))
    && forall t: real :: a <= t ==> !InDisc(c, rel, v.Times(t))
  }

  /** The end of the ray has been pushed outwards along the radius of the contact onto the
      tangent there. */
  ghost predicate OnTangent(rel: Vec, v: Vec, contact: Vec, w: Vec) {
    var radius := contact.Minus(rel);
    && w.Minus(contact).Dot(radius) == 0.0
    && exists k: real :: 0.0 <= k && w == v.Plus(radius.Times(k))
  }

  /** What becomes of a ray at a circle.  A ray from inside is turned round.  A ray that stays
      outside is left alone.  Any other is stopped at the first contact, or slides along the
      tangent; or, on the outer side, is stopped where it leaves the disc. */
  ghost predicate Meets(c: Circle, rel: Vec, v: Vec, slide: bool, outer: bool, w: Vec) {
    if InDisc(c, rel, ZERO) then w == v.Negated()
    else if outer then
      if exists a :: LastContact(c, rel, v, a) then exists a :: LastContact(c, rel, v, a) && w == v.Times(a) else w == v
    else if Enters(c, rel, v) then
      exists a :: FirstContact(c, rel, v, a) && if slide then OnTangent(rel, v, v.Times(a), w) else w == v.Times(a)
    else w == v
  }

  // ------------------------------------------------------------------ along the line

  lemma StartsInside(root: Root, c: Circle, rel: Vec)
    requires IsRoot(root) && 0.0 <= c.radius
    ensures InDisc(c, rel, ZERO) <==> Norm(root, rel) < c.radius
  {
    hide IsRoot, Norm, Mul, Vec.Square, Vec.Minus, Vec.Negated;
    EmptyRay(rel);
    NormFacts(root, rel);
    RootOrder(c.radius, Norm(root, rel));
  }

  lemma DistanceIdentity(d: real, s: real, x: real)
    ensures Mul(s, s) - 2.0 * Mul(d, s) + x == Mul(s - d, s - d) + (x - Mul(d, d))
  {
  }

  /** The distance of a point of the line from the center. */
  lemma PointDistance(root: Root, rel: Vec, v: Vec, t: real)
    requires IsRoot(root) && v != ZERO
    ensures var s := Mul(t, Norm(root, v)) - Along(root, rel, v);
      v.Times(t).Minus(rel).Square() == Mul(s, s) + AsideSquare(root, rel, v)
  {
    hide IsRoot, Norm, Mul, Along, Vec.Square, Vec.Dot, Vec.Times, Vec.Minus;
    var n, d := Norm(root, v), Along(root, rel, v);
    NormFacts(root, v);
    AlongFacts(root, rel, v);
    RadiusIdentity(v, rel, t);
    MulOfMul(t, n);
    MulTriple(t, d, n);
    DistanceIdentity(d, Mul(t, n), rel.Square());
  }

  /** A point of a line that crosses the circle lies in the disc exactly if it is nearer to
      the foot of the perpendicular than half the chord; on the circle if it is as near. */
  lemma InDiscByChord(root: Root, c: Circle, rel: Vec, v: Vec, t: real)
    requires IsRoot(root) && 0.0 <= c.radius && v != ZERO && Crosses(root, c, rel, v)
    ensures var s, h := Mul(t, Norm(root, v)) - Along(root, rel, v), HalfChord(root, c, rel, v);
      && (InDisc(c, rel, v.Times(t)) <==> -h < s < h)
      && (OnCircle(c, rel, v.Times(t)) <==> s == h || s == -h)
  {
    hide IsRoot, Norm, Mul, Along, HalfChord, Crosses, Vec.Square, Vec.Times, Vec.Minus;
    var s, h := Mul(t, Norm(root, v)) - Along(root, rel, v), HalfChord(root, c, rel, v);
    PointDistance(root, rel, v, t);
    HalfChordFacts(root, c, rel, v);
    MulNegatedSquare(s);
    var m := if s < 0.0 then -s else s;
    RootOrder(h, m);
    RootOrder(m, h);
  }

  lemma HalfChordIsPositive(root: Root, c: Circle, rel: Vec, v: Vec)
    requires IsRoot(root) && 0.0 <= c.radius && v != ZERO && Crosses(root, c, rel, v)
    ensures 0.0 < HalfChord(root, c, rel, v)
  {
    hide IsRoot, Norm, Mul, Along, HalfChord, Vec.Square;
    HalfChordFacts(root, c, rel, v);
    ZeroSquare();
  }

  /** A ray from outside whose line does not cross the circle stays outside. */
  lemma MissesStay(root: Root, c: Circle, rel: Vec, v: Vec, t: real)
    requires IsRoot(root) && 0.0 <= c.radius <= Norm(root, rel) && v != ZERO && !Crosses(root, c, rel, v) && 0.0 <= t
    ensures !InDisc(c, rel, v.Times(t))
  {
    hide IsRoot, Norm, Mul, Crosses, Vec.Square, Vec.Times, Vec.Minus;
    PointAsPart(root, v, t);
    PartIsOutside(root, c, rel, v, Mul(t, Norm(root, v)));
  }

  lemma PointAsPart(root: Root, v: Vec, t: real)
    requires IsRoot(root) && v != ZERO && 0.0 <= t
    ensures 0.0 <= Mul(t, Norm(root, v)) && v.Times(t) == Shortened(root, v, Mul(t, Norm(root, v)))
  {
    hide IsRoot, Norm, Mul, Quot, Vec.Times;
    NormFacts(root, v);
    MulNatural(t, Norm(root, v));
    QuotUnique(t, Mul(t, Norm(root, v)), Norm(root, v));
  }

  /** A stop at length s is the point at share a of the ray. */
  lemma StopAsShare(root: Root, v: Vec, s: real) returns (a: real)
    requires IsRoot(root) && v != ZERO && 0.0 <= s < Norm(root, v)
    ensures 0.0 <= a < 1.0 && Mul(a, Norm(root, v)) == s && Shortened(root, v, s) == v.Times(a)
  {
    hide IsRoot, Norm, Mul, Quot, Vec.Times;
    var n := Norm(root, v);
    ShortenedFacts(root, v, s);
    a := Quot(s, n);
    if 1.0 <= a {
      MulOrder(1.0, a, n);
      ExpandSecond(1.0, 1.0, n);
    }
  }

  lemma ShareOrder(a: real, t: real, n: real)
    requires 0.0 < n
    ensures a <= t <==> Mul(a, n) <= Mul(t, n)
    ensures Mul(1.0, n) == n && Mul(0.0, n) == 0.0
  {
    hide Mul;
    if a <= t {
      MulOrder(a, t, n);
    } else {
      MulPositive(a - t, n);
      MulMinus(a, t, n);
    }
    ExpandSecond(1.0, 1.0, n);
    MulZero(n);
  }

  // ----------------------------------------------------------------- the inner side

  /** A ray from outside that is stopped on the near side has its first contact there, and
      would have entered the disc. */
  lemma StopIsFirstContact(root: Root, c: Circle, rel: Vec, v: Vec, s: real) returns (a: real)
    requires IsRoot(root) && 0.0 <= c.radius && Meet(root, c, rel, v, false) == Stopped(s)
    ensures v != ZERO && Mul(a, Norm(root, v)) == s && Shortened(root, v, s) == v.Times(a)
    ensures FirstContact(c, rel, v, a) && Enters(c, rel, v)
  {
    hide IsRoot, Norm, Mul, Along, HalfChord, Crosses, Shortened, InDisc, OnCircle, Vec.Times;
    StopIsSound(root, c, rel, v, false);
    HalfChordIsPositive(root, c, rel, v);
    NearCrossing(root, c, rel, v);
    var n, d, h := Norm(root, v), Along(root, rel, v), HalfChord(root, c, rel, v);
    a := StopAsShare(root, v, s);
    InDiscByChord(root, c, rel, v, a);
    forall t: real | 0.0 <= t <= a
      ensures !InDisc(c, rel, v.Times(t))
    {
      InDiscByChord(root, c, rel, v, t);
      ShareOrder(t, a, n);
    }
    if d < n {
      var t := StopAsShare(root, v, d);
      InDiscByChord(root, c, rel, v, t);
    } else {
      ShareOrder(1.0, 1.0, n);
      InDiscByChord(root, c, rel, v, 1.0);
    }
  }

  /** A ray from outside that is left alone stays outside. */
  lemma FreeStaysOutside(root: Root, c: Circle, rel: Vec, v: Vec)
    requires IsRoot(root) && 0.0 <= c.radius <= Norm(root, rel) && Meet(root, c, rel, v, false) == Free
    ensures !Enters(c, rel, v)
  {
    hide IsRoot, Norm, Mul, Along, HalfChord, Crosses, Crossing, InDisc, Vec.Times;
    forall t: real | 0.0 <= t <= 1.0
      ensures !InDisc(c, rel, v.Times(t))
    {
      ShareOrder2(root, v, t);
      if Crosses(root, c, rel, v) {
        CrossingIsFar(root, c, rel, v, false);
        NearCrossing(root, c, rel, v);
        InDiscByChord(root, c, rel, v, t);
      } else {
        MissesStay(root, c, rel, v, t);
      }
    }
  }

  lemma ShareOrder2(root: Root, v: Vec, t: real)
    requires IsRoot(root) && v != ZERO && t <= 1.0
    ensures Mul(t, Norm(root, v)) <= Norm(root, v)
  {
    hide IsRoot, Norm, Mul;
    NormFacts(root, v);
    ShareOrder(t, 1.0, Norm(root, v));
  }

  // ----------------------------------------------------------------- the outer side

  /** A ray from outside that is stopped on the far side leaves the disc there. */
  lemma StopIsLastContact(root: Root, c: Circle, rel: Vec, v: Vec, s: real) returns (a: real)
    requires IsRoot(root) && 0.0 <= c.radius && Meet(root, c, rel, v, true) == Stopped(s)
    ensures v != ZERO && Shortened(root, v, s) == v.Times(a)
    ensures LastContact(c, rel, v, a)
  {
    hide IsRoot, Norm, Mul, Along, HalfChord, Crosses, Shortened, InDisc, OnCircle, Vec.Times;
    StopIsSound(root, c, rel, v, true);
    HalfChordIsPositive(root, c, rel, v);
    NearCrossing(root, c, rel, v);
    var n, d, h := Norm(root, v), Along(root, rel, v), HalfChord(root, c, rel, v);
    a := StopAsShare(root, v, s);
    InDiscByChord(root, c, rel, v, a);
    forall t: real | a <= t
      ensures !InDisc(c, rel, v.Times(t))
    {
      InDiscByChord(root, c, rel, v, t);
      ShareOrder(a, t, n);
    }
    var t := StopAsShare(root, v, d);
    InDiscByChord(root, c, rel, v, t);
    ShareOrder(t, a, n);
  }

  /** A ray from outside that is left alone on the far side does not leave the disc. */
  lemma FreeNeverLeaves(root: Root, c: Circle, rel: Vec, v: Vec, a: real)
    requires IsRoot(root) && 0.0 <= c.radius <= Norm(root, rel) && Meet(root, c, rel, v, true) == Free
    ensures !LastContact(c, rel, v, a)
  {
    hide IsRoot, Norm, Mul, Along, HalfChord, Crosses, Crossing, InDisc, OnCircle, Vec.Times;
    if LastContact(c, rel, v, a) {
      var t: real :| 0.0 <= t <= a && InDisc(c, rel, v.Times(t));
      var n, d := Norm(root, v), Along(root, rel, v);
      NormFacts(root, v);
      if Crosses(root, c, rel, v) {
        CrossingIsFar(root, c, rel, v, true);
        NearCrossing(root, c, rel, v);
        HalfChordFacts(root, c, rel, v);
        InDiscByChord(root, c, rel, v, a);
        InDiscByChord(root, c, rel, v, t);
        ShareOrder(t, a, n);
        ShareOrder(1.0, a, n);
      } else {
        MissesStay(root, c, rel, v, t);
      }
    }
  }

  // ------------------------------------------------------------------------ sliding

  lemma DotOfSum(p: Vec, q: Vec, w: Vec)
    ensures p.Plus(q).Dot(w) == p.Dot(w) + q.Dot(w)
    ensures p.Minus(q).Dot(w) == p.Dot(w) - q.Dot(w)
  {
  }

  lemma DotOfTimes(v: Vec, w: Vec, a: real)
    ensures v.Times(a).Dot(w) == Mul(a, v.Dot(w))
    ensures w.Dot(w) == w.Square()
  {
  }

  lemma FootIdentity(v: Vec, rho: Vec, a: real, k: real)
    ensures v.Plus(rho.Times(k)).Minus(v.Times(a)).Dot(rho) == v.Dot(rho) - Mul(a, v.Dot(rho)) + Mul(k, rho.Square())
  {
    hide Mul, Vec.Dot, Vec.Plus, Vec.Minus, Vec.Times, Vec.Square;
    DotOfSum(v, rho.Times(k), rho);
    DotOfSum(v.Plus(rho.Times(k)), v.Times(a), rho);
    DotOfTimes(v, rho, a);
    DotOfTimes(rho, rho, k);
  }

  /** The slid end is the foot of the perpendicular from the old end to the tangent at the
      point of contact. */
  lemma SlidIsOnTangent(root: Root, c: Circle, rel: Vec, v: Vec, s: real, a: real)
    requires IsRoot(root) && 0.0 <= c.radius && Meet(root, c, rel, v, false) == Stopped(s)
    requires v != ZERO && 0.0 < c.radius && Mul(a, Norm(root, v)) == s && Shortened(root, v, s) == v.Times(a)
    ensures OnTangent(rel, v, v.Times(a), Slid(root, c, rel, v, s))
  {
    hide Mul, Quot, Norm, IsRoot, Vec.Times, Vec.Square, Vec.Dot, Vec.Plus, Vec.Minus, Meet, Along, HalfChord, Shortened;
    StopIsSound(root, c, rel, v, false);
    NormFacts(root, v);
    AlongFacts(root, rel, v);
    var n, d, h, r := Norm(root, v), Along(root, rel, v), HalfChord(root, c, rel, v), c.radius;
    MulPositive(r, r);
    var k, rho := Quot(Mul(n - s, h), Mul(r, r)), v.Times(a).Minus(rel);
    QuotMul(Mul(n - s, h), Mul(r, r));
    Contact(v, rel, a, n, d, h, r, s);
    PushFacts(n, d, h, r, rel.Square(), s, k);
    FootIdentity(v, rho, a, k);
    MulSigns(a, 1.0, Mul(h, n));
    MulTriple(a, h, n);
    MulMinus(n, s, h);
    MulCommutes(n, h);
    MulCommutes(s, h);
  }

  /** Meeting a circle does what the geometry says. */
  lemma ObstructionIsGeometric(root: Root, c: Circle, origin: Vec, v: Vec, slide: bool, outer: bool)
    requires IsRoot(root) && 0.0 <= c.radius && !(slide && outer)
    ensures Meets(c, c.center.Minus(origin), v, slide, outer, Obstructed(root, c, origin, v, slide, outer))
  {
    hide IsRoot, Norm, Mul, Meet, Slid, Shortened, InDisc, FirstContact, LastContact, Enters, OnTangent, Vec.Times, Vec.Negated;
    var rel := c.center.Minus(origin);
    StartsInside(root, c, rel);
    MeetCases(root, c, rel, v, outer);
    match Meet(root, c, rel, v, outer)
    case Reversed =>
      if !InDisc(c, rel, ZERO) {
        EmptyRayStays(root, c, rel);
      }
    case Free =>
      if outer {
        forall a | LastContact(c, rel, v, a) ensures false {
          FreeNeverLeaves(root, c, rel, v, a);
        }
      } else {
        FreeStaysOutside(root, c, rel, v);
      }
    case Stopped(s) =>
      if outer {
        var a := StopIsLastContact(root, c, rel, v, s);
      } else {
        var a := StopIsFirstContact(root, c, rel, v, s);
        StoppedRadius(root, c, rel, v);
        if slide {
          SlidIsOnTangent(root, c, rel, v, s, a);
        }
      }
  }

  /** Who starts in the disc, or has nowhere to go, is turned round. */
  lemma MeetCases(root: Root, c: Circle, rel: Vec, v: Vec, outer: bool)
    requires IsRoot(root) && 0.0 <= c.radius
    ensures Meet(root, c, rel, v, outer).Reversed? <==> v == ZERO || Norm(root, rel) < c.radius
    ensures Meet(root, c, rel, v, outer).Stopped? ==> v != ZERO && Crosses(root, c, rel, v)
  {
    hide IsRoot, Norm, Mul, Crosses, Crossing;
  }

  lemma EmptyRayStays(root: Root, c: Circle, rel: Vec)
    requires IsRoot(root) && !InDisc(c, rel, ZERO)
    ensures ZERO.Negated() == ZERO && !Enters(c, rel, ZERO)
    ensures forall a :: !LastContact(c, rel, ZERO, a)
  {
    hide InDisc, OnCircle, Vec.Times, Vec.Negated, Vec.Minus, Vec.Square;
    EmptyRay(rel);
    forall t: real
      ensures !InDisc(c, rel, ZERO.Times(t))
    {
      TimesOfZero(t);
    }
  }

  /** A ray that meets several circles meets one after the other, each with what the one before
      has left of it. */
  lemma {:induction false} FoldIsSequence(root: Root, cs: seq<Circle>, origin: Vec, v: Vec, slide: bool, outer: bool) returns (rays: seq<Vec>)
    requires IsRoot(root) && !(slide && outer) && forall c :: c in cs ==> 0.0 <= c.radius
    ensures |rays| == |cs| + 1 && rays[0] == v && rays[|cs|] == Fold(root, cs, origin, v, slide, outer)
    ensures forall i :: 0 <= i < |cs| ==> MeetsNext(cs, origin, rays, slide, outer, i)
  {
    hide IsRoot, Meets, Obstructed;
    if cs == [] {
      rays := [v];
    } else {
      var n := |cs| - 1;
      var before := FoldIsSequence(root, cs[..n], origin, v, slide, outer);
      ObstructionIsGeometric(root, cs[n], origin, before[n], slide, outer);
      rays := before + [Fold(root, cs, origin, v, slide, outer)];
      forall i | 0 <= i < |cs|
        ensures MeetsNext(cs, origin, rays, slide, outer, i)
      {
        if i < n {
          assert MeetsNext(cs[..n], origin, before, slide, outer, i);
        }
      }
    }
  }

  /** Circle i turns ray i into the next one. */
  ghost predicate MeetsNext(cs: seq<Circle>, origin: Vec, rays: seq<Vec>, slide: bool, outer: bool, i: nat)
    requires |rays| == |cs| + 1 && i < |cs|
  {
    Meets(cs[i], cs[i].center.Minus(origin), rays[i], slide, outer, rays[i + 1])
  }
}
