/** Plane vectors over exact reals.  The square root is a parameter: every law is proved
    for any function that returns non-negative roots. */
module Vectors {
  import opened Reals

  datatype Vec = Vec(x: real, y: real) {
    function Plus(w: Vec): Vec { Vec(x + w.x, y + w.y) }
    function Minus(w: Vec): Vec { Vec(x - w.x, y - w.y) }
    function Times(k: real): Vec { Vec(k * x, k * y) }
    function Negated(): Vec { Vec(-x, -y) }
    function Dot(w: Vec): real { x * w.x + y * w.y }
    function Square(): real { x * x + y * y }
  }

  const ZERO: Vec := Vec(0.0, 0.0)

  type Root = real -> real

  ghost predicate IsRoot(root: Root) {
    forall a: real :: 0.0 <= a ==> 0.0 <= root(a) && root(a) * root(a) == a
  }

  function Norm(root: Root, v: Vec): real {
    root(v.Square())
  }

  // ------------------------------------------------------------------------ norms

  lemma SquareAsMul(v: Vec)
    ensures v.Square() == Mul(v.x, v.x) + Mul(v.y, v.y)
  {
  }

  lemma NotZero(v: Vec)
    requires v != ZERO
    ensures v.x < 0.0 || 0.0 < v.x || v.y < 0.0 || 0.0 < v.y
  {
    assert v == Vec(v.x, v.y);
  }

  lemma SquareIsNatural(v: Vec)
    ensures 0.0 <= v.Square()
    ensures v != ZERO ==> 0.0 < v.Square()
  {
    hide Mul, Vec.Square;
    SquareAsMul(v);
    MulSquare(v.x);
    MulSquare(v.y);
    if v != ZERO {
      NotZero(v);
    }
  }

  lemma NormSquare(root: Root, v: Vec)
    requires IsRoot(root)
    ensures 0.0 <= Norm(root, v)
    ensures Mul(Norm(root, v), Norm(root, v)) == v.Square()
  {
    hide Vec.Square;
    SquareIsNatural(v);
  }

  lemma ZeroSquare()
    ensures Mul(0.0, 0.0) == 0.0 && ZERO.Square() == 0.0
  {
  }

  lemma NormFacts(root: Root, v: Vec)
    requires IsRoot(root)
    ensures 0.0 <= Norm(root, v)
    ensures Mul(Norm(root, v), Norm(root, v)) == v.Square()
    ensures v != ZERO <==> 0.0 < Norm(root, v)
  {
    hide IsRoot, Norm, Mul, Vec.Square;
    NormSquare(root, v);
    SquareIsNatural(v);
    MulSquare(Norm(root, v));
    ZeroSquare();
  }

  /** The inequality of Cauchy and Schwarz in the plane. */
  lemma Cauchy(v: Vec, w: Vec)
    ensures Mul(v.Dot(w), v.Dot(w)) <= Mul(v.Square(), w.Square())
  {
    var c := v.x * w.y - v.y * w.x;
    MulSquare(c);
    assert Mul(v.Square(), w.Square()) == Mul(v.Dot(w), v.Dot(w)) + Mul(c, c);
  }

  lemma DotBound(root: Root, v: Vec, w: Vec)
    requires IsRoot(root)
    ensures v.Dot(w) <= Mul(Norm(root, v), Norm(root, w))
  {
    Cauchy(v, w);
    NormFacts(root, v);
    NormFacts(root, w);
    var a, b := Norm(root, v), Norm(root, w);
    MulOfMul(a, b);
    MulNatural(a, b);
    var dot := v.Dot(w);
    hide Mul, IsRoot, Norm;
    if 0.0 < dot {
      RootOrder(dot, Mul(a, b));
    }
  }

  lemma SquareOfPlus(v: Vec, w: Vec)
    ensures v.Plus(w).Square() == v.Square() + 2.0 * v.Dot(w) + w.Square()
  {
  }

  /** The triangle inequality. */
  lemma Triangle(root: Root, v: Vec, w: Vec)
    requires IsRoot(root)
    ensures Norm(root, v.Plus(w)) <= Norm(root, v) + Norm(root, w)
  {
    DotBound(root, v, w);
    NormFacts(root, v);
    NormFacts(root, w);
    NormFacts(root, v.Plus(w));
    var a, b := Norm(root, v), Norm(root, w);
    SquareOfSum(a, b);
    SquareOfPlus(v, w);
    RootOrder(Norm(root, v.Plus(w)), a + b);
  }

  /** The smaller of two squares is the smaller norm. */
  lemma NormOrder(root: Root, v: Vec, w: Vec)
    requires IsRoot(root)
    ensures Norm(root, v) <= Norm(root, w) <==> v.Square() <= w.Square()
  {
    NormFacts(root, v);
    NormFacts(root, w);
    RootOrder(Norm(root, v), Norm(root, w));
  }

  lemma SquareOfTimes(v: Vec, k: real, n: real)
    requires Mul(n, n) == v.Square()
    ensures v.Times(k).Square() == Mul(Mul(k, n), Mul(k, n))
  {
    MulOfMul(k, n);
    assert v.Times(k).Square() == Mul(Mul(k, k), v.Square());
  }

  lemma NormOfTimes(root: Root, v: Vec, k: real)
    requires IsRoot(root) && 0.0 <= k
    ensures Norm(root, v.Times(k)) == Mul(k, Norm(root, v))
  {
    var n, m := Norm(root, v), Norm(root, v.Times(k));
    NormFacts(root, v);
    NormFacts(root, v.Times(k));
    SquareOfTimes(v, k, n);
    MulNatural(k, n);
    RootOrder(m, Mul(k, n));
    RootOrder(Mul(k, n), m);
  }
}
