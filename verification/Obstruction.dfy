/** How a circle obstructs a ray: reversal, passing by, stopping and sliding. */
module Obstruction {
  import opened Reals
  import opened Vectors

  datatype Circle = Circle(center: Vec, radius: real)

  /** What a ray meets at a circle: it starts inside, or is free, or is stopped at a
      distance before its own end. */
  datatype Encounter = Reversed | Free | Stopped(at: real)

  /** How far along the ray the point closest to the center lies. */
  ghost function Along(root: Root, rel: Vec, v: Vec): real
    requires IsRoot(root) && v != ZERO
  {
    NormFacts(root, v);
    Quot(rel.Dot(v), Norm(root, v))
  }

  /** The square of the distance between the center and the line of the ray. */
  ghost function AsideSquare(root: Root, rel: Vec, v: Vec): real
    requires IsRoot(root) && v != ZERO
  {
    rel.Square() - Mul(Along(root, rel, v), Along(root, rel, v))
  }

  ghost function HalfChord(root: Root, c: Circle, rel: Vec, v: Vec): real
    requires IsRoot(root) && v != ZERO
  {
    root(Mul(c.radius, c.radius) - AsideSquare(root, rel, v))
  }

  /** The distance at which the line of the ray enters the circle, or leaves it. */
  ghost function Crossing(root: Root, c: Circle, rel: Vec, v: Vec, outer: bool): real
    requires IsRoot(root) && v != ZERO
  {
    var d, h := Along(root, rel, v), HalfChord(root, c, rel, v);
    Max(0.0, if outer then d + h else d - h)
  }

  /** The line of the ray passes through the open disc ahead of its origin. */
  ghost predicate Crosses(root: Root, c: Circle, rel: Vec, v: Vec)
    requires IsRoot(root) && v != ZERO
  {
    0.0 <= rel.Dot(v) && AsideSquare(root, rel, v) < Mul(c.radius, c.radius)
  }

  ghost function Meet(root: Root, c: Circle, rel: Vec, v: Vec, outer: bool): Encounter
    requires IsRoot(root)
  {
    if v == ZERO || Norm(root, rel) < c.radius then Reversed
    else if Norm(root, rel) >= Norm(root, v) + c.radius then Free
    else if Crosses(root, c, rel, v) && Crossing(root, c, rel, v, outer) < Norm(root, v) then
      Stopped(Crossing(root, c, rel, v, outer))
    else Free
  }

  /** The ray shortened to length s. */
  ghost function Shortened(root: Root, v: Vec, s: real): Vec
    requires IsRoot(root) && v != ZERO
  {
    NormFacts(root, v);
    v.Times(Quot(s, Norm(root, v)))
  }

  /** The rest of a stopped ray is turned along the circle: from the point of contact the
      old ray is pushed outwards along the radius. */
  ghost function Slid(root: Root, c: Circle, rel: Vec, v: Vec, s: real): Vec
    requires IsRoot(root) && v != ZERO && 0.0 < c.radius
  {
    MulPositive(c.radius, c.radius);
    var push := Quot(Mul(Norm(root, v) - s, HalfChord(root, c, rel, v)), Mul(c.radius, c.radius));
    v.Plus(Shortened(root, v, s).Minus(rel).Times(push))
  }

  /** The ray from the given origin after it has met a circle. */
  ghost function Obstructed(root: Root, c: Circle, origin: Vec, v: Vec, slide: bool, outer: bool): Vec
    requires IsRoot(root) && 0.0 <= c.radius
  {
    var rel := c.center.Minus(origin);
    match Meet(root, c, rel, v, outer)
    case Reversed => v.Negated()
    case Free => v
    case Stopped(s) =>
      StoppedRadius(root, c, rel, v);
      if slide then Slid(root, c, rel, v, s) else Shortened(root, v, s)
  }

  lemma AlongFacts(root: Root, rel: Vec, v: Vec)
    requires IsRoot(root) && v != ZERO
    ensures 0.0 < Norm(root, v)
    ensures Mul(Along(root, rel, v), Norm(root, v)) == rel.Dot(v)
    ensures 0.0 <= Along(root, rel, v) <==> 0.0 <= rel.Dot(v)
  {
    hide Mul, Quot, IsRoot, Norm, Vec.Dot;
    NormFacts(root, v);
    var d, n := Along(root, rel, v), Norm(root, v);
    QuotMul(rel.Dot(v), n);
    if 0.0 <= d {
      MulNatural(d, n);
    } else {
      MulPositive(-d, n);
      MulNegated(d, n);
    }
  }

  /** The projection of a vector on a direction is no longer than the vector. */
  lemma AsideIsNatural(root: Root, rel: Vec, v: Vec)
    requires IsRoot(root) && v != ZERO
    ensures 0.0 <= AsideSquare(root, rel, v)
  {
    hide Mul, Along, IsRoot, Norm, Vec.Dot, Vec.Square;
    var d, n := Along(root, rel, v), Norm(root, v);
    AlongFacts(root, rel, v);
    NormFacts(root, v);
    Cauchy(rel, v);
    MulOfMul(d, n);
    MulPositive(n, n);
    var q := rel.Square() - Mul(d, d);
    if q < 0.0 {
      MulPositive(-q, Mul(n, n));
      MulNegated(q, Mul(n, n));
      MulMinus(rel.Square(), Mul(d, d), Mul(n, n));
    }
  }

  /** A circle that is crossed has a proper radius. */
  lemma StoppedRadius(root: Root, c: Circle, rel: Vec, v: Vec)
    requires IsRoot(root) && 0.0 <= c.radius
    ensures v != ZERO && Crosses(root, c, rel, v) ==> 0.0 < c.radius
  {
    hide Mul, AsideSquare, Vec.Square, Vec.Dot, IsRoot, Norm;
    if v != ZERO && Crosses(root, c, rel, v) {
      AsideIsNatural(root, rel, v);
      ZeroSquare();
    }
  }

  // --------------------------------------------------------------- a stopped ray

  /** The numbers of a stopped ray: its length n, the distance d along it, the half chord h,
      the radius r, the distance p of the center, and the stop s. */
  ghost predicate StopFacts(n: real, d: real, h: real, r: real, p: real, s: real) {
    && 0.0 < n && 0.0 < r && 0.0 <= h && 0.0 <= d && 0.0 <= s < n
    && Mul(h, h) == Mul(r, r) - p + Mul(d, d)
    && h <= r
  }

  lemma HalfChordFacts(root: Root, c: Circle, rel: Vec, v: Vec)
    requires IsRoot(root) && 0.0 <= c.radius && v != ZERO && Crosses(root, c, rel, v)
    ensures var h, d := HalfChord(root, c, rel, v), Along(root, rel, v);
      && 0.0 < c.radius && 0.0 <= h <= c.radius && 0.0 <= d
      && Mul(h, h) == Mul(c.radius, c.radius) - rel.Square() + Mul(d, d)
  {
    hide Along, Norm, Vec.Square, Vec.Dot, Mul;
    StoppedRadius(root, c, rel, v);
    AlongFacts(root, rel, v);
    AsideIsNatural(root, rel, v);
    var x := Mul(c.radius, c.radius) - AsideSquare(root, rel, v);
    RootIs(root, x);
    RootOrder(root(x), c.radius);
  }

  lemma RootIs(root: Root, x: real)
    requires IsRoot(root) && 0.0 <= x
    ensures 0.0 <= root(x) && Mul(root(x), root(x)) == x
  {
  }

  /** From outside, the near crossing of a stopped ray lies ahead. */
  lemma NearCrossing(root: Root, c: Circle, rel: Vec, v: Vec)
    requires IsRoot(root) && 0.0 <= c.radius && v != ZERO && Crosses(root, c, rel, v)
    requires c.radius <= Norm(root, rel)
    ensures HalfChord(root, c, rel, v) <= Along(root, rel, v)
    ensures Crossing(root, c, rel, v, false) == Along(root, rel, v) - HalfChord(root, c, rel, v)
    ensures Crossing(root, c, rel, v, true) == Along(root, rel, v) + HalfChord(root, c, rel, v)
  {
    hide Along, HalfChord, AsideSquare, Norm, Vec.Square, Vec.Dot, Mul, IsRoot, Crosses;
    HalfChordFacts(root, c, rel, v);
    NormFacts(root, rel);
    RootOrder(c.radius, Norm(root, rel));
    RootOrder(HalfChord(root, c, rel, v), Along(root, rel, v));
  }

  lemma StopIsSound(root: Root, c: Circle, rel: Vec, v: Vec, outer: bool)
    requires IsRoot(root) && 0.0 <= c.radius && Meet(root, c, rel, v, outer).Stopped?
    ensures v != ZERO && c.radius <= Norm(root, rel) && Crosses(root, c, rel, v)
    ensures var n, d, h := Norm(root, v), Along(root, rel, v), HalfChord(root, c, rel, v);
      var s := Meet(root, c, rel, v, outer).at;
      && StopFacts(n, d, h, c.radius, rel.Square(), s)
      && s == (if outer then d + h else d - h)
  {
    hide Along, HalfChord, AsideSquare, Norm, Vec.Square, Vec.Dot, Mul, IsRoot, Crosses, Crossing;
    HalfChordFacts(root, c, rel, v);
    NearCrossing(root, c, rel, v);
    NormFacts(root, v);
  }

  // -------------------------------------------------------------- sliding, in numbers

  lemma RadiusIdentity(v: Vec, rel: Vec, a: real)
    ensures v.Times(a).Minus(rel).Square() == Mul(Mul(a, a), v.Square()) - 2.0 * Mul(a, rel.Dot(v)) + rel.Square()
    ensures v.Dot(v.Times(a).Minus(rel)) == Mul(a, v.Square()) - rel.Dot(v)
  {
  }

  lemma CombinationScalar(x: real, y: real, a: real, b: real)
    ensures Mul(a * x + b * y, a * x + b * y)
         == Mul(Mul(a, a), Mul(x, x)) + 2.0 * Mul(Mul(a, b), Mul(x, y)) + Mul(Mul(b, b), Mul(y, y))
  {
  }

  lemma DotAsMul(v: Vec, w: Vec)
    ensures v.Dot(w) == Mul(v.x, w.x) + Mul(v.y, w.y)
  {
  }

  lemma CombinationIdentity(v: Vec, w: Vec, a: real, b: real)
    ensures v.Times(a).Plus(w.Times(b)).Square()
         == Mul(Mul(a, a), v.Square()) + 2.0 * Mul(Mul(a, b), v.Dot(w)) + Mul(Mul(b, b), w.Square())
  {
    hide Mul, Vec.Square, Vec.Dot;
    SquareAsMul(v.Times(a).Plus(w.Times(b)));
    SquareAsMul(v);
    SquareAsMul(w);
    DotAsMul(v, w);
    CombinationScalar(v.x, w.x, a, b);
    CombinationScalar(v.y, w.y, a, b);
    MulPlus(Mul(a, a), Mul(v.x, v.x), Mul(v.y, v.y));
    MulPlus(Mul(a, b), Mul(v.x, w.x), Mul(v.y, w.y));
    MulPlus(Mul(b, b), Mul(w.x, w.x), Mul(w.y, w.y));
    var sum := v.Times(a).Plus(w.Times(b));
    assert sum.x == a * v.x + b * w.x && sum.y == a * v.y + b * w.y;
    assert sum.Square() == Mul(sum.x, sum.x) + Mul(sum.y, sum.y);
    assert Mul(sum.x, sum.x) == Mul(a * v.x + b * w.x, a * v.x + b * w.x);
    assert Mul(Mul(a, a), v.Square()) == Mul(Mul(a, a), Mul(v.x, v.x)) + Mul(Mul(a, a), Mul(v.y, v.y));
    assert Mul(Mul(a, b), v.Dot(w)) == Mul(Mul(a, b), Mul(v.x, w.x)) + Mul(Mul(a, b), Mul(v.y, w.y));
    assert Mul(Mul(b, b), w.Square()) == Mul(Mul(b, b), Mul(w.x, w.x)) + Mul(Mul(b, b), Mul(w.y, w.y));
  }

  lemma ContactIdentity(d: real, h: real, n: real)
    ensures Mul(d - h, d - h) - 2.0 * Mul(d, d - h) == Mul(h, h) - Mul(d, d)
    ensures Mul(d - h, n) == Mul(d, n) - Mul(h, n)
  {
  }

  /** The point of contact lies on the circle, on its near side. */
  lemma Contact(v: Vec, rel: Vec, a: real, n: real, d: real, h: real, r: real, s: real)
    requires StopFacts(n, d, h, r, rel.Square(), s) && s == d - h
    requires Mul(n, n) == v.Square() && Mul(d, n) == rel.Dot(v) && Mul(a, n) == s
    ensures v.Times(a).Minus(rel).Square() == Mul(r, r)
    ensures v.Dot(v.Times(a).Minus(rel)) == -Mul(h, n)
  {
    hide Mul, Vec.Square, Vec.Dot, Vec.Times, Vec.Minus;
    RadiusIdentity(v, rel, a);
    MulOfMul(a, n);
    MulTriple(a, d, n);
    MulTriple(a, n, n);
    ContactIdentity(d, h, n);
  }

  /** How far the old ray is pushed: not past the rest of the ray. */
  lemma PushFacts(n: real, d: real, h: real, r: real, p: real, s: real, k: real)
    requires StopFacts(n, d, h, r, p, s) && Mul(k, Mul(r, r)) == Mul(n - s, h)
    ensures 0.0 <= k && Mul(k, h) <= n - s
  {
    hide Mul;
    var m, rr := n - s, Mul(r, r);
    MulPositive(r, r);
    MulNatural(m, h);
    if k < 0.0 {
      MulPositive(-k, rr);
      MulNegated(k, rr);
    }
    if m < Mul(k, h) {
      MulPositive(Mul(k, h) - m, rr);
      MulMinus(Mul(k, h), m, rr);
      MulTriple(k, h, rr);
      MulTriple(m, h, h);
      MulTriple(h, m, h);
      RootOrder(h, r);
      MulOrder(Mul(h, h), rr, m);
      MulCommutes(m, rr);
      MulCommutes(m, Mul(h, h));
    }
  }

  lemma ExpandPush(k: real, n: real, s: real, h: real)
    ensures Mul(k, Mul(n - s, h)) == Mul(Mul(k, h), n) - Mul(Mul(k, h), s)
  {
  }

  lemma ExpandSecond(k: real, rr: real, x: real)
    ensures Mul(Mul(1.0 + k, 1.0 + k), rr) == rr + 2.0 * Mul(k, rr) + Mul(k, Mul(k, rr))
    ensures Mul(1.0 + k, x) == x + Mul(k, x)
    ensures Mul(Mul(k, k), rr) == Mul(k, Mul(k, rr))
    ensures Mul(1.0, x) == x && Mul(1.0, k) == k
  {
  }

  lemma MulSigns(a: real, b: real, x: real)
    ensures Mul(a, -x) == -Mul(a, x)
    ensures Mul(Mul(a, b), -x) == -Mul(b, Mul(a, x))
    ensures Mul(1.0 - a, x) == x - Mul(a, x)
  {
  }

  /** A slid ray is no longer than the old one: its square is less by k h (n + s). */
  lemma SlidLength(v: Vec, rho: Vec, n: real, d: real, h: real, r: real, p: real, s: real, k: real)
    requires StopFacts(n, d, h, r, p, s) && Mul(k, Mul(r, r)) == Mul(n - s, h)
    requires Mul(n, n) == v.Square() && rho.Square() == Mul(r, r) && v.Dot(rho) == -Mul(h, n)
    ensures v.Plus(rho.Times(k)).Square() <= v.Square()
  {
    hide Mul, Vec.Square, Vec.Dot, Vec.Times, Vec.Plus;
    PushFacts(n, d, h, r, p, s, k);
    TimesOne(v);
    CombinationIdentity(v, rho, 1.0, k);
    ExpandSecond(k, Mul(r, r), v.Square());
    ExpandSecond(1.0, 1.0, 1.0);
    MulSigns(k, 1.0, Mul(h, n));
    MulTriple(k, h, n);
    ExpandPush(k, n, s, h);
    MulNatural(k, h);
    MulNatural(Mul(k, h), n);
    MulNatural(Mul(k, h), s);
  }

  lemma TimesOne(v: Vec)
    ensures v.Times(1.0) == v
  {
  }

  lemma SlidVector(v: Vec, rel: Vec, a: real, k: real)
    ensures var rho := v.Times(a).Minus(rel);
      v.Plus(rho.Times(k)).Minus(rel) == v.Times(1.0 - a).Plus(rho.Times(1.0 + k))
  {
  }

  /** A slid ray ends outside the open disc: the square of its distance from the center
      exceeds the square of the radius by m (m - k h), where m is the rest of the ray. */
  lemma SlidDistance(v: Vec, rel: Vec, a: real, n: real, d: real, h: real, r: real, s: real, k: real)
    requires StopFacts(n, d, h, r, rel.Square(), s) && s == d - h && Mul(k, Mul(r, r)) == Mul(n - s, h)
    requires Mul(n, n) == v.Square() && Mul(d, n) == rel.Dot(v) && Mul(a, n) == s
    ensures Mul(r, r) <= v.Plus(v.Times(a).Minus(rel).Times(k)).Minus(rel).Square()
  {
    hide Mul, Vec.Square, Vec.Dot, Vec.Times, Vec.Plus, Vec.Minus;
    var rho, m := v.Times(a).Minus(rel), n - s;
    Contact(v, rel, a, n, d, h, r, s);
    PushFacts(n, d, h, r, rel.Square(), s, k);
    SlidVector(v, rel, a, k);
    CombinationIdentity(v, rho, 1.0 - a, 1.0 + k);
    MulSigns(a, 1.0 + k, n);
    MulOfMul(1.0 - a, n);
    MulSigns(1.0 - a, 1.0 + k, Mul(h, n));
    MulTriple(1.0 - a, h, n);
    MulCommutes(m, h);
    ExpandSecond(k, Mul(r, r), Mul(m, h));
    MulTriple(k, m, h);
    MulNatural(m, m - Mul(k, h));
    MulCommutes(m, m - Mul(k, h));
    MulMinus(m, Mul(k, h), m);
    MulCommutes(m, Mul(k, h));
  }

  // ------------------------------------------------------------- the laws of obstruct

  lemma NegatedSquare(v: Vec)
    ensures v.Negated().Square() == v.Square()
  {
  }

  lemma ShortenedFacts(root: Root, v: Vec, s: real)
    requires IsRoot(root) && v != ZERO && 0.0 <= s
    ensures 0.0 < Norm(root, v)
    ensures var a := Quot(s, Norm(root, v));
      Mul(a, Norm(root, v)) == s && 0.0 <= a && Shortened(root, v, s) == v.Times(a)
    ensures Norm(root, Shortened(root, v, s)) == s
  {
    hide Mul, Quot, Norm, IsRoot, Vec.Times;
    var n := Norm(root, v);
    NormFacts(root, v);
    var a := Quot(s, n);
    QuotMul(s, n);
    if a < 0.0 {
      MulPositive(-a, n);
      MulNegated(a, n);
    }
    NormOfTimes(root, v, a);
  }

  /** Meeting a circle never makes a ray longer, whether it is reversed, freed, stopped or
      slid; the program never asks for sliding along the far side. */
  lemma NeverLonger(root: Root, c: Circle, origin: Vec, v: Vec, slide: bool, outer: bool)
    requires IsRoot(root) && 0.0 <= c.radius && !(slide && outer)
    ensures Norm(root, Obstructed(root, c, origin, v, slide, outer)) <= Norm(root, v)
  {
    hide Mul, Quot, Norm, IsRoot, Vec.Times, Vec.Square, Vec.Dot, Vec.Plus, Vec.Minus, Meet, Slid, Shortened, Along, HalfChord;
    var rel := c.center.Minus(origin);
    match Meet(root, c, rel, v, outer)
    case Reversed =>
      NegatedSquare(v);
      NormOrder(root, v.Negated(), v);
    case Free =>
    case Stopped(s) =>
      StopIsSound(root, c, rel, v, outer);
      if slide {
        SlidIsSound(root, c, rel, v, s);
        NormOrder(root, Slid(root, c, rel, v, s), v);
      } else {
        ShortenedFacts(root, v, s);
      }
  }

  /** The two claims about a slid ray. */
  lemma SlidIsSound(root: Root, c: Circle, rel: Vec, v: Vec, s: real)
    requires IsRoot(root) && 0.0 <= c.radius && Meet(root, c, rel, v, false) == Stopped(s)
    ensures v != ZERO && 0.0 < c.radius
    ensures Slid(root, c, rel, v, s).Square() <= v.Square()
    ensures Mul(c.radius, c.radius) <= Slid(root, c, rel, v, s).Minus(rel).Square()
  {
    hide Mul, Quot, Norm, IsRoot, Vec.Times, Vec.Square, Vec.Dot, Vec.Plus, Vec.Minus, Meet, Along, HalfChord, Shortened;
    StopIsSound(root, c, rel, v, false);
    ShortenedFacts(root, v, s);
    NormFacts(root, v);
    AlongFacts(root, rel, v);
    var n, d, h, r := Norm(root, v), Along(root, rel, v), HalfChord(root, c, rel, v), c.radius;
    var a := Quot(s, n);
    MulPositive(r, r);
    var k := Quot(Mul(n - s, h), Mul(r, r));
    QuotMul(Mul(n - s, h), Mul(r, r));
    Contact(v, rel, a, n, d, h, r, s);
    SlidLength(v, v.Times(a).Minus(rel), n, d, h, r, rel.Square(), s, k);
    SlidDistance(v, rel, a, n, d, h, r, s, k);
  }

  lemma MinusSquare(v: Vec, rel: Vec)
    ensures v.Minus(rel).Square() == v.Square() - 2.0 * rel.Dot(v) + rel.Square()
    ensures v.Minus(rel).Square() == rel.Minus(v).Square()
  {
  }

  lemma CompleteSquare(n: real, d: real)
    ensures Mul(n - d, n - d) == Mul(n, n) - 2.0 * Mul(d, n) + Mul(d, d)
    ensures Mul(d - n, d - n) == Mul(n - d, n - d)
  {
  }

  /** A ray that starts outside and is left alone ends outside. */
  lemma FreeEndsOutside(root: Root, c: Circle, rel: Vec, v: Vec)
    requires IsRoot(root) && 0.0 <= c.radius <= Norm(root, rel) && Meet(root, c, rel, v, false) == Free
    ensures Mul(c.radius, c.radius) <= v.Minus(rel).Square()
  {
    hide Mul, Norm, IsRoot, Vec.Square, Vec.Dot, Vec.Minus, Along, HalfChord, Crosses, Crossing;
    var n, r := Norm(root, v), c.radius;
    NormFacts(root, v);
    NormFacts(root, rel);
    MinusSquare(v, rel);
    if Norm(root, rel) >= n + r {
      TooFar(root, rel, v, r);
    } else if !Crosses(root, c, rel, v) {
      NotCrossing(root, c, rel, v);
    } else {
      LateCrossing(root, c, rel, v);
    }
  }

  lemma TooFar(root: Root, rel: Vec, v: Vec, r: real)
    requires IsRoot(root) && 0.0 <= r && Norm(root, v) + r <= Norm(root, rel)
    ensures Mul(r, r) <= v.Minus(rel).Square()
  {
    hide Mul, Norm, IsRoot, Vec.Square;
    var w := rel.Minus(v);
    assert w.Plus(v) == rel;
    Triangle(root, w, v);
    NormFacts(root, w);
    MinusSquare(v, rel);
    RootOrder(r, Norm(root, w));
  }

  lemma NotCrossing(root: Root, c: Circle, rel: Vec, v: Vec)
    requires IsRoot(root) && 0.0 <= c.radius <= Norm(root, rel) && v != ZERO && !Crosses(root, c, rel, v)
    ensures Mul(c.radius, c.radius) <= v.Minus(rel).Square()
  {
    hide Mul, Norm, IsRoot, Vec.Square, Vec.Dot, Vec.Minus, Along;
    MinusSquare(v, rel);
    NormFacts(root, rel);
    NormFacts(root, v);
    SquareIsNatural(v);
    RootOrder(c.radius, Norm(root, rel));
    if 0.0 <= rel.Dot(v) {
      AlongFacts(root, rel, v);
      var n, d := Norm(root, v), Along(root, rel, v);
      CompleteSquare(n, d);
      MulSquare(n - d);
    }
  }

  lemma LateCrossing(root: Root, c: Circle, rel: Vec, v: Vec)
    requires IsRoot(root) && 0.0 <= c.radius <= Norm(root, rel) && v != ZERO && Crosses(root, c, rel, v)
    requires Norm(root, v) <= Crossing(root, c, rel, v, false)
    ensures Mul(c.radius, c.radius) <= v.Minus(rel).Square()
  {
    hide Mul, Norm, IsRoot, Vec.Square, Vec.Dot, Vec.Minus, Along, HalfChord, Crosses;
    MinusSquare(v, rel);
    NormFacts(root, v);
    AlongFacts(root, rel, v);
    HalfChordFacts(root, c, rel, v);
    NearCrossing(root, c, rel, v);
    var n, d, h := Norm(root, v), Along(root, rel, v), HalfChord(root, c, rel, v);
    CompleteSquare(n, d);
    RootOrder(h, d - n);
  }

  lemma EndpointFromCenter(origin: Vec, w: Vec, center: Vec)
    ensures origin.Plus(w).Minus(center) == w.Minus(center.Minus(origin))
  {
  }

  /** Sliding is sound: a ray that does not start inside a circle does not end inside it,
      whether it points away, falls short, misses, or is stopped and slides. */
  lemma SlidingStaysOutside(root: Root, c: Circle, origin: Vec, v: Vec)
    requires IsRoot(root) && 0.0 <= c.radius <= Norm(root, c.center.Minus(origin))
    ensures c.radius <= Norm(root, origin.Plus(Obstructed(root, c, origin, v, true, false)).Minus(c.center))
  {
    hide Mul, Quot, Norm, IsRoot, Vec.Times, Vec.Square, Vec.Dot, Vec.Plus, Vec.Minus, Vec.Negated, Meet, Slid, Shortened, Along, HalfChord;
    var rel := c.center.Minus(origin);
    var w := Obstructed(root, c, origin, v, true, false);
    EndpointFromCenter(origin, w, c.center);
    match Meet(root, c, rel, v, false) {
      case Reversed => ReversedIsZero(root, c, rel, v);
      case Free => FreeEndsOutside(root, c, rel, v);
      case Stopped(s) => SlidIsSound(root, c, rel, v, s);
    }
    NormFacts(root, w.Minus(rel));
    RootOrder(c.radius, Norm(root, w.Minus(rel)));
  }

  lemma EmptyRay(rel: Vec)
    ensures ZERO.Negated() == ZERO && ZERO.Minus(rel).Square() == rel.Square()
  {
    hide Vec.Square;
    NegatedSquare(rel);
    assert ZERO.Minus(rel) == rel.Negated();
  }

  /** From outside only the empty ray is reversed. */
  lemma ReversedIsZero(root: Root, c: Circle, rel: Vec, v: Vec)
    requires IsRoot(root) && 0.0 <= c.radius <= Norm(root, rel) && Meet(root, c, rel, v, false) == Reversed
    ensures v == ZERO && v.Negated() == v
    ensures Mul(c.radius, c.radius) <= v.Negated().Minus(rel).Square()
  {
    hide Mul, Norm, IsRoot, Along, HalfChord, Crosses, Crossing, Vec.Square, Vec.Dot, Vec.Minus, Vec.Negated;
    NormFacts(root, rel);
    RootOrder(c.radius, Norm(root, rel));
    EmptyRay(rel);
  }

  /** A circle that is out of reach along one axis leaves a ray as it is. */
  lemma OutOfReach(root: Root, c: Circle, origin: Vec, v: Vec, slide: bool, outer: bool)
    requires IsRoot(root) && 0.0 <= c.radius
    requires var rel := c.center.Minus(origin);
      var reach := Norm(root, v) + c.radius;
      rel.x <= -reach || reach <= rel.x || rel.y <= -reach || reach <= rel.y
    ensures Obstructed(root, c, origin, v, slide, outer) == v
  {
    hide Mul, Norm, IsRoot, Along, HalfChord, Crosses, Crossing, Slid, Shortened, Vec.Square, Vec.Dot, Vec.Negated;
    var rel := c.center.Minus(origin);
    NormFacts(root, v);
    CoordinateBound(root, rel);
    EmptyRay(rel);
  }

  /** Each coordinate is bounded by the norm. */
  lemma CoordinateBound(root: Root, v: Vec)
    requires IsRoot(root)
    ensures -Norm(root, v) <= v.x <= Norm(root, v) && -Norm(root, v) <= v.y <= Norm(root, v)
  {
    hide Mul, Norm, IsRoot, Vec.Square;
    NormFacts(root, v);
    SquareAsMul(v);
    MulSquare(v.x);
    MulSquare(v.y);
    AbsBound(v.x, Norm(root, v));
    AbsBound(v.y, Norm(root, v));
  }

  lemma AbsBound(a: real, n: real)
    requires 0.0 <= n && Mul(a, a) <= Mul(n, n)
    ensures -n <= a <= n
  {
    hide Mul;
    if 0.0 <= a {
      RootOrder(a, n);
    } else {
      MulNegatedSquare(a);
      RootOrder(-a, n);
    }
  }

}
