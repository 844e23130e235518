/** Rays as the program handles them: mutable vectors that a circle obstructs in place. */
module Rays {
  import opened Reals
  import opened Vectors
  import opened Obstruction
  import C = CameraRays

  class Vector2D {
    const origin: Vec
    var vector: Vec

    constructor (vector: Vec, origin: Vec)
      ensures this.vector == vector && this.origin == origin
    {
      this.vector := vector;
      this.origin := origin;
    }

    /** Changes the length and keeps the direction; the angle of the empty vector is zero. */
    method SetNorm(root: Root, value: real)
      requires IsRoot(root)
      modifies this
      ensures Norm(root, vector) == if value < 0.0 then -value else value
      ensures vector == if old(vector) == ZERO then Vec(value, 0.0) else Shortened(root, old(vector), value)
    {
      hide IsRoot, Norm, Mul, Quot, Vec.Square, Vec.Times;
      NormFacts(root, vector);
      if vector == ZERO {
        NormOnAxis(root, value);
        vector := Vec(value, 0.0);
      } else {
        ShortenedNorm(root, vector, value);
        DivIsQuot(value, Norm(root, vector));
        vector := vector.Times(value / Norm(root, vector));
      }
    }

    function Endpoint(): Vec
      reads this
    {
      origin.Plus(vector)
    }
  }

  lemma NormOnAxis(root: Root, value: real)
    requires IsRoot(root)
    ensures Norm(root, Vec(value, 0.0)) == if value < 0.0 then -value else value
  {
    hide IsRoot, Norm, Mul, Vec.Square;
    var v, n := Vec(value, 0.0), if value < 0.0 then -value else value;
    NormFacts(root, v);
    SquareAsMul(v);
    ZeroSquare();
    MulNegatedSquare(value);
    RootOrder(Norm(root, v), n);
    RootOrder(n, Norm(root, v));
  }

  /** A negative length turns the vector round. */
  lemma ShortenedNorm(root: Root, v: Vec, value: real)
    requires IsRoot(root) && v != ZERO
    ensures Norm(root, Shortened(root, v, value)) == if value < 0.0 then -value else value
  {
    hide IsRoot, Norm, Mul, Quot, Vec.Square, Vec.Times;
    if value < 0.0 {
      NormFacts(root, v);
      var n := Norm(root, v);
      ShortenedFacts(root, v, -value);
      QuotNegated(-value, n);
      TimesNegated(v, Quot(-value, n));
      NormOrder(root, v.Times(Quot(value, n)), v.Times(Quot(-value, n)));
      NormOrder(root, v.Times(Quot(-value, n)), v.Times(Quot(value, n)));
    } else {
      ShortenedFacts(root, v, value);
    }
  }

  lemma QuotNegated(a: real, b: real)
    requires 0.0 < b
    ensures Quot(-a, b) == -Quot(a, b)
  {
    hide Mul, Quot;
    QuotMul(a, b);
    MulNegated(Quot(a, b), b);
    QuotUnique(-Quot(a, b), -a, b);
  }

  lemma TimesNegated(v: Vec, k: real)
    ensures v.Times(-k).Square() == v.Times(k).Square()
  {
    assert v.Times(-k) == Vec(-v.Times(k).x, -v.Times(k).y);
  }

  lemma DivIsQuot(a: real, b: real)
    requires 0.0 < b
    ensures Quot(a, b) == a / b
  {
  }

  /** The cosine of the angle between ray and center, as the program computes it.  For a
      center at the origin the quotient is not a number and the minimum stays one. */
  function Cosine(inner: real, product: real): real {
    if product == 0.0 then 1.0 else Min(1.0, inner / product)
  }

  lemma CosineFacts(root: Root, rel: Vec, v: Vec, cos: real)
    requires IsRoot(root) && v != ZERO && rel != ZERO && 0.0 <= rel.Dot(v)
    requires cos == Cosine(rel.Dot(v), Mul(Norm(root, rel), Norm(root, v)))
    ensures Mul(Norm(root, rel), cos) == Along(root, rel, v)
    ensures 0.0 <= cos <= 1.0
  {
    hide Norm, IsRoot, Mul, Vec.Dot, Quot, Along;
    var p, n, inner := Norm(root, rel), Norm(root, v), rel.Dot(v);
    NormFacts(root, rel);
    NormFacts(root, v);
    MulPositive(p, n);
    DotBound(root, rel, v);
    CosineIs(inner, Mul(p, n), cos);
    MulTriple(cos, p, n);
    C.AlongIs(root, rel, v, Mul(cos, p));
    MulCommutes(cos, p);
  }

  lemma CosineIs(inner: real, product: real, cos: real)
    requires 0.0 < product && 0.0 <= inner <= product && cos == Cosine(inner, product)
    ensures Mul(cos, product) == inner && 0.0 <= cos <= 1.0
  {
    var q := inner / product;
    QuotBounds(inner, product);
    assert Mul(q, product) == inner;
  }

  lemma QuotBounds(a: real, b: real)
    requires 0.0 < b && 0.0 <= a <= b
    ensures 0.0 <= a / b <= 1.0
  {
    hide Mul, Quot;
    var q := a / b;
    DivMul(a, b);
    if q < 0.0 {
      MulPositive(-q, b);
      MulNegated(q, b);
    } else if 1.0 < q {
      MulPositive(q - 1.0, b);
      MulMinus(q, 1.0, b);
      ExpandSecond(1.0, 1.0, b);
    }
  }

  lemma DivMul(a: real, b: real)
    requires 0.0 < b
    ensures Mul(a / b, b) == a
  {
  }

  /** The distance from the center to the line of the ray, from its cosine. */
  lemma PerpendicularFacts(root: Root, c: Circle, rel: Vec, v: Vec, cos: real, perpendicular: real)
    requires IsRoot(root) && v != ZERO && rel != ZERO && 0.0 <= rel.Dot(v) && 0.0 <= c.radius
    requires Mul(Norm(root, rel), cos) == Along(root, rel, v) && 0.0 <= cos <= 1.0
    requires perpendicular == Mul(Norm(root, rel), root(1.0 - Mul(cos, cos)))
    ensures Mul(perpendicular, perpendicular) == AsideSquare(root, rel, v)
    ensures perpendicular < c.radius <==> Crosses(root, c, rel, v)
  {
    hide Norm, IsRoot, Mul, Vec.Dot, Vec.Square, Quot, Along;
    var p := Norm(root, rel);
    NormFacts(root, rel);
    MulOrder(cos, 1.0, cos);
    ExpandSecond(1.0, 1.0, cos);
    var y := 1.0 - Mul(cos, cos);
    RootIs(root, y);
    MulOfMul(p, root(y));
    MulOfMul(p, cos);
    MulNatural(p, root(y));
    MulMinus(1.0, Mul(cos, cos), Mul(p, p));
    MulCommutes(y, Mul(p, p));
    MulCommutes(Mul(cos, cos), Mul(p, p));
    ExpandSecond(1.0, 1.0, Mul(p, p));
    RootOrder(c.radius, perpendicular);
  }

  /** A center at the origin of a ray that does not start inside stops nothing. */
  lemma CenterAtOrigin(root: Root, c: Circle, v: Vec)
    requires IsRoot(root) && v != ZERO && 0.0 <= c.radius <= Norm(root, ZERO)
    ensures c.radius == 0.0 && ZERO.Dot(v) == 0.0 && !Crosses(root, c, ZERO, v)
  {
    hide Norm, IsRoot, Mul, Vec.Square, Quot, Along;
    NormFacts(root, ZERO);
    AlongFacts(root, ZERO, v);
    AsideIsNatural(root, ZERO, v);
    ZeroSquare();
  }

  /** A circle obstructs a ray, which is changed in place or, when it is reversed, replaced. */
  method Obstruct(root: Root, c: Circle, ray: Vector2D, keepTangential: bool, outer: bool) returns (result: Vector2D)
    requires IsRoot(root) && 0.0 <= c.radius
    modifies ray
    ensures result == ray || fresh(result)
    ensures result.origin == ray.origin
    ensures result.vector == Obstructed(root, c, ray.origin, old(ray.vector), keepTangential, outer)
  {
    hide Norm, IsRoot, Mul, Quot, Vec.Dot, Vec.Square, Vec.Times, Along, AsideSquare, HalfChord, Crosses;
    var v := ray.vector;
    var relative := c.center.Minus(ray.origin);
    var norm, distance := Norm(root, v), Norm(root, relative);
    NormFacts(root, v);
    NormFacts(root, relative);
    if norm == 0.0 || distance < c.radius {
      result := new Vector2D(v.Negated(), ray.origin);
      return;
    }
    result := ray;
    if distance >= norm + c.radius {
      return;
    }
    var inner := relative.Dot(v);
    if inner >= 0.0 {
      var cos := Cosine(inner, Mul(distance, norm));
      var perpendicular := Mul(distance, root(1.0 - Mul(cos, cos)));
      if relative == ZERO {
        CenterAtOrigin(root, c, v);
        NoDistance(distance, root(1.0 - Mul(cos, cos)));
      } else {
        CosineFacts(root, relative, v, cos);
        PerpendicularFacts(root, c, relative, v, cos, perpendicular);
      }
      if c.radius > perpendicular {
        StoppedRadius(root, c, relative, v);
        var halfChord := root(Mul(c.radius, c.radius) - Mul(perpendicular, perpendicular));
        HalfChordIs(root, c, relative, v, perpendicular);
        var newNorm := Max(0.0, if outer then Mul(distance, cos) + halfChord else Mul(distance, cos) - halfChord);
        if newNorm < norm {
          ray.SetNorm(root, newNorm);
          if keepTangential {
            var radius := ray.Endpoint().Minus(c.center);
            EndpointFromCenter(ray.origin, ray.vector, c.center);
            MulPositive(c.radius, c.radius);
            ray.vector := v.Plus(radius.Times(Quot(Mul(norm - newNorm, halfChord), Mul(c.radius, c.radius))));
          }
        }
      }
    } else {
      NotAhead(root, c, relative, v);
    }
  }

  lemma NoDistance(distance: real, x: real)
    requires distance == 0.0 || distance <= 0.0 <= distance
    ensures Mul(distance, x) == 0.0
  {
  }

  lemma HalfChordIs(root: Root, c: Circle, rel: Vec, v: Vec, perpendicular: real)
    requires IsRoot(root) && v != ZERO && Mul(perpendicular, perpendicular) == AsideSquare(root, rel, v)
    ensures root(Mul(c.radius, c.radius) - Mul(perpendicular, perpendicular)) == HalfChord(root, c, rel, v)
  {
    hide IsRoot, Mul, AsideSquare;
  }

  lemma NotAhead(root: Root, c: Circle, rel: Vec, v: Vec)
    requires IsRoot(root) && v != ZERO && rel.Dot(v) < 0.0
    ensures !Crosses(root, c, rel, v)
  {
    hide Vec.Dot;
  }

  /** A camera's boundary ray is shortened by one obstacle after another. */
  method Shorten(root: Root, ray: Vector2D, obstacles: seq<Circle>, outer: bool) returns (result: Vector2D)
    requires IsRoot(root) && forall c :: c in obstacles ==> 0.0 <= c.radius
    modifies ray
    ensures result == ray || fresh(result)
    ensures result.origin == ray.origin
    ensures result.vector == C.Fold(root, obstacles, ray.origin, old(ray.vector), false, outer)
  {
    hide IsRoot, Obstructed;
    result := ray;
    for i := 0 to |obstacles|
      invariant result == ray || fresh(result)
      invariant result.origin == ray.origin
      invariant result.vector == C.Fold(root, obstacles[..i], ray.origin, old(ray.vector), false, outer)
    {
      assert obstacles[..i + 1][..i] == obstacles[..i];
      result := Obstruct(root, obstacles[i], result, false, outer);
    }
    assert obstacles[..|obstacles|] == obstacles;
  }
}
