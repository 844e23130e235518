/** Where the warehouses lie, and how far a target has to go from one to another. */
module Terrain {
  import opened Reals
  import opened Vectors
  import opened TargetMotion
  import opened CargoEconomy

  const WAREHOUSE_RADIUS: real := 75.0
  const WAREHOUSE_OFFSET: real := 925.0
  const WAREHOUSE_GAP: real := 1700.0

  /** The warehouses lie in the four corners of the terrain, counterclockwise. */
  function Center(w: nat): Vec {
    Vec(if w == 0 || w == 3 then WAREHOUSE_OFFSET else -WAREHOUSE_OFFSET,
        if w == 0 || w == 1 then WAREHOUSE_OFFSET else -WAREHOUSE_OFFSET)
  }

  function Abs(a: real): real { if a < 0.0 then -a else a }

  /** How far a point is outside the square of a warehouse along the axis where it is
      farther; not positive inside. */
  function Away(p: Vec, w: nat): real {
    var dx, dy := Abs(p.x - Center(w).x), Abs(p.y - Center(w).y);
    (if dx <= dy then dy else dx) - WAREHOUSE_RADIUS
  }

  predicate StandsIn(p: Vec, w: nat) {
    Away(p, w) <= 0.0
  }

  function Inside(p: Vec): (inside: seq<bool>)
    ensures |inside| == NUM_WAREHOUSES
  {
    seq(NUM_WAREHOUSES, w requires 0 <= w < NUM_WAREHOUSES => StandsIn(p, w))
  }

  /** The squares of the warehouses, edges included. */
  lemma WarehouseSquares(p: Vec)
    ensures Inside(p)[0] <==> 850.0 <= p.x <= 1000.0 && 850.0 <= p.y <= 1000.0
    ensures Inside(p)[1] <==> -1000.0 <= p.x <= -850.0 && 850.0 <= p.y <= 1000.0
    ensures Inside(p)[2] <==> -1000.0 <= p.x <= -850.0 && -1000.0 <= p.y <= -850.0
    ensures Inside(p)[3] <==> 850.0 <= p.x <= 1000.0 && -1000.0 <= p.y <= -850.0
  {
  }

  /** Warehouses are far apart: a target stands in one of them at most, and far outside
      of all others. */
  lemma WarehousesAreApart(p: Vec, v: nat, w: nat)
    requires v < NUM_WAREHOUSES && w < NUM_WAREHOUSES && v != w && StandsIn(p, v)
    ensures WAREHOUSE_GAP <= Away(p, w)
    ensures Inside(p)[v] && !Inside(p)[w]
  {
  }

  lemma AxisIsShorter(root: Root, v: Vec)
    requires IsRoot(root)
    ensures Abs(v.x) <= Norm(root, v) && Abs(v.y) <= Norm(root, v)
  {
    hide IsRoot, Norm, Mul, Vec.Square;
    NormFacts(root, v);
    SquareAsMul(v);
    MulSquare(v.x);
    MulSquare(v.y);
    MulNegatedSquare(v.x);
    MulNegatedSquare(v.y);
    RootOrder(Abs(v.x), Norm(root, v));
    RootOrder(Abs(v.y), Norm(root, v));
  }

  /** A move brings a target nearer to a warehouse by no more than its length. */
  lemma AwayShrinksSlowly(root: Root, p: Vec, q: Vec, reach: real, w: nat)
    requires IsRoot(root) && Norm(root, q.Minus(p)) <= reach
    ensures Away(p, w) - reach <= Away(q, w)
  {
    hide IsRoot, Norm;
    AxisIsShorter(root, q.Minus(p));
  }

  // ------------------------------------------------------- crossing an open terrain

  /** The step from a towards b, no longer than s. */
  function Toward(a: real, b: real, s: real): real {
    if s < b - a then s else if b - a < -s then -s else b - a
  }

  /** How many steps of length s it takes to cover d. */
  function Paces(d: real, s: real): nat
    requires 0.0 < s
  {
    if d == 0.0 then 0
    else
      QuotPositive(Abs(d), s);
      Ceil(Quot(Abs(d), s))
  }

  lemma QuotPositive(a: real, b: real)
    requires 0.0 < a && 0.0 < b
    ensures 0.0 < Quot(a, b)
  {
    hide Mul, Quot;
    QuotMul(a, b);
    if Quot(a, b) <= 0.0 {
      MulNatural(-Quot(a, b), b);
      MulNegated(Quot(a, b), b);
    }
  }

  lemma QuotLess(a: real, b: real)
    requires 0.0 < b
    ensures Quot(a - b, b) == Quot(a, b) - 1.0
  {
    hide Mul, Quot;
    QuotMul(a, b);
    MulMinus(Quot(a, b), 1.0, b);
    assert Mul(1.0, b) == b by { MulOne(b); }
    QuotUnique(Quot(a, b) - 1.0, a - b, b);
  }

  lemma MulOne(b: real)
    ensures Mul(1.0, b) == b
  {
  }

  /** Each step takes one pace off the way. */
  lemma TowardHelps(a: real, b: real, s: real)
    requires 0.0 < s && a != b
    ensures Paces(a + Toward(a, b, s) - b, s) < Paces(a - b, s)
  {
    hide Quot;
    var d := Abs(a - b);
    QuotPositive(d, s);
    if s < d {
      QuotLess(d, s);
      assert Abs(a + Toward(a, b, s) - b) == d - s;
    } else {
      assert a + Toward(a, b, s) == b;
    }
  }

  /** First along one axis, then along the other. */
  function Steer(p: Vec, q: Vec, s: real): Vec {
    if p.x != q.x then Vec(Toward(p.x, q.x, s), 0.0) else Vec(0.0, Toward(p.y, q.y, s))
  }

  function Far(p: Vec, q: Vec, s: real): nat
    requires 0.0 < s
  {
    Paces(p.x - q.x, s) + Paces(p.y - q.y, s)
  }

  lemma SteerHelps(p: Vec, q: Vec, s: real)
    requires 0.0 < s
    ensures p.Plus(Steer(p, q, s)) == q || Far(p.Plus(Steer(p, q, s)), q, s) < Far(p, q, s)
  {
    hide Paces;
    if p.x != q.x {
      TowardHelps(p.x, q.x, s);
    } else if p.y != q.y {
      TowardHelps(p.y, q.y, s);
    } else {
      assert p.Plus(Steer(p, q, s)) == q;
    }
  }

  lemma SteerIsShort(root: Root, p: Vec, q: Vec, s: real)
    requires IsRoot(root) && 0.0 < s
    ensures Norm(root, Steer(p, q, s)) <= s
  {
    hide IsRoot, Norm, Mul, Vec.Square;
    var v := Steer(p, q, s);
    NormFacts(root, v);
    SquareAsMul(v);
    ZeroSquare();
    var d := if v.y == 0.0 then v.x else v.y;
    MulNegatedSquare(d);
    RootOrder(Abs(d), s);
    RootOrder(Norm(root, v), Abs(d));
  }

  lemma SteerStaysInside(p: Vec, q: Vec, s: real)
    requires InTerrain(p) && InTerrain(q) && 0.0 < s
    ensures InTerrain(p.Plus(Steer(p, q, s)))
    ensures Clip(p.Plus(Steer(p, q, s))) == p.Plus(Steer(p, q, s))
  {
  }

  /** Nothing is farther away than the freight for crossing the terrain, for each axis and
      for each unit of capacity. */
  lemma FarIsBounded(p: Vec, w: nat, stepSize: real, capacity: nat)
    requires InTerrain(p) && 0.0 < stepSize && 1 <= capacity <= 2
    ensures Far(p, Center(w), stepSize / capacity as real) <= 2 * (capacity * FreightScale(stepSize))
  {
    PacesAreBounded(p.x - Center(w).x, stepSize, capacity);
    PacesAreBounded(p.y - Center(w).y, stepSize, capacity);
  }

  lemma PacesAreBounded(d: real, stepSize: real, capacity: nat)
    requires -2000.0 <= d <= 2000.0 && 0.0 < stepSize && 1 <= capacity <= 2
    ensures Paces(d, stepSize / capacity as real) <= capacity * FreightScale(stepSize)
  {
    var s, f := stepSize / capacity as real, 2000.0 / stepSize;
    assert f * stepSize == 2000.0;
    assert s * capacity as real == stepSize;
    if d != 0.0 {
      var q := Quot(Abs(d), s);
      assert Quot(Abs(d), s) <= capacity as real * f by {
        QuotAtMost(Abs(d), s, capacity as real * f);
        assert Mul(capacity as real * f, s) == f * (s * capacity as real);
      }
      CeilOfMultiple(q, f, capacity);
    }
  }

  lemma CeilOfMultiple(q: real, f: real, n: nat)
    requires q <= n as real * f
    ensures Ceil(q) <= n * Ceil(f)
  {
    assert f <= Ceil(f) as real;
    assert n as real * f <= n as real * Ceil(f) as real;
    assert n as real * Ceil(f) as real == (n * Ceil(f)) as real;
  }
}
