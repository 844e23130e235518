/** How a target moves: the requested step is clamped, meets the obstacles found nearby
    and is cut off at the edge of the terrain. */
module TargetMotion {
  import opened Reals
  import opened Vectors
  import opened Obstruction
  import opened SpatialHash
  import opened Rays
  import C = CameraRays
  import G = CircleGeometry

  const TERRAIN_SIZE: real := 1000.0
  const TOLERANCE: real := 0.000001

  function Clamp(a: real, low: real, high: real): real {
    if a < low then low else if high < a then high else a
  }

  /** The nearest point of the terrain. */
  function Clip(p: Vec): Vec {
    Vec(Clamp(p.x, -TERRAIN_SIZE, TERRAIN_SIZE), Clamp(p.y, -TERRAIN_SIZE, TERRAIN_SIZE))
  }

  predicate InTerrain(p: Vec) {
    -TERRAIN_SIZE <= p.x <= TERRAIN_SIZE && -TERRAIN_SIZE <= p.y <= TERRAIN_SIZE
  }

  function Shapes(list: seq<Obstacle>): (cs: seq<Circle>)
    ensures |cs| == |list|
    ensures forall i :: 0 <= i < |list| ==> cs[i] == list[i].Shape()
  {
    if list == [] then [] else Shapes(list[..|list| - 1]) + [list[|list| - 1].Shape()]
  }

  /** A requested step, cut down to the step size. */
  ghost function Limited(root: Root, action: Vec, stepSize: real): Vec
    requires IsRoot(root) && 0.0 < stepSize
  {
    NormFacts(root, action);
    if Norm(root, action) > stepSize then Shortened(root, action, stepSize) else action
  }

  /** Where a target ends up that meets the given circles, first to last. */
  ghost function Moved(root: Root, location: Vec, action: Vec, stepSize: real, circles: seq<Circle>): Vec
    requires IsRoot(root) && 0.0 < stepSize && forall c :: c in circles ==> 0.0 <= c.radius
  {
    Clip(location.Plus(C.Fold(root, circles, location, Limited(root, action, stepSize), true, false)))
  }

  /** A ray after it has met the given obstacles, first to last. */
  ghost function Scan(root: Root, list: seq<Obstacle>, origin: Vec, v: Vec): Vec
    requires IsRoot(root) && forall o :: o in list ==> 0.0 <= o.radius
  {
    C.Fold(root, Shapes(list), origin, v, true, false)
  }

  // ------------------------------------------------------------------ lengths

  lemma {:induction false} FoldNeverLonger(root: Root, cs: seq<Circle>, origin: Vec, v: Vec)
    requires IsRoot(root) && forall c :: c in cs ==> 0.0 <= c.radius
    ensures Norm(root, C.Fold(root, cs, origin, v, true, false)) <= Norm(root, v)
  {
    hide IsRoot, Norm, Obstructed;
    if cs != [] {
      FoldNeverLonger(root, cs[..|cs| - 1], origin, v);
      NeverLonger(root, cs[|cs| - 1], origin, C.Fold(root, cs[..|cs| - 1], origin, v, true, false), true, false);
    }
  }

  lemma LimitedIsShort(root: Root, action: Vec, stepSize: real)
    requires IsRoot(root) && 0.0 < stepSize
    ensures Norm(root, Limited(root, action, stepSize)) <= stepSize
  {
    hide IsRoot, Norm, Shortened;
    NormFacts(root, action);
    if Norm(root, action) > stepSize {
      ShortenedFacts(root, action, stepSize);
    }
  }

  /** The limited step goes in the direction of the action, and as far as the action and the
      step size allow. */
  lemma LimitedIsExact(root: Root, action: Vec, stepSize: real) returns (k: real)
    requires IsRoot(root) && 0.0 < stepSize
    ensures 0.0 <= k && Limited(root, action, stepSize) == action.Times(k)
    ensures Norm(root, Limited(root, action, stepSize)) == Min(stepSize, Norm(root, action))
    ensures Norm(root, action) <= stepSize ==> Limited(root, action, stepSize) == action
  {
    hide IsRoot, Norm, Shortened, Mul, Quot, Vec.Times;
    NormFacts(root, action);
    if Norm(root, action) > stepSize {
      ShortenedFacts(root, action, stepSize);
      k := Quot(stepSize, Norm(root, action));
    } else {
      TimesOne(action);
      k := 1.0;
    }
  }

  /** Multiples of a vector with the same length are the same. */
  lemma SameMultiple(root: Root, v: Vec, a: real, b: real)
    requires IsRoot(root) && 0.0 <= a && 0.0 <= b && Norm(root, v.Times(a)) == Norm(root, v.Times(b))
    ensures v.Times(a) == v.Times(b)
  {
    hide IsRoot, Norm, Mul, Vec.Times;
    var n := Norm(root, v);
    NormFacts(root, v);
    NormOfTimes(root, v, a);
    NormOfTimes(root, v, b);
    if v == ZERO {
      C.TimesOfZero(a);
      C.TimesOfZero(b);
    } else if a < b {
      MulPositive(b - a, n);
      MulMinus(b, a, n);
    } else if b < a {
      MulPositive(a - b, n);
      MulMinus(a, b, n);
    }
  }

  /** Where nothing is in the way a target goes along its action, as far as the action and the
      step size allow, and is cut off at the edge of the terrain. */
  lemma FreeMoveIsExact(root: Root, location: Vec, action: Vec, stepSize: real, k: real)
    requires IsRoot(root) && 0.0 < stepSize
    requires 0.0 <= k && Norm(root, action.Times(k)) == Min(stepSize, Norm(root, action))
    ensures Moved(root, location, action, stepSize, []) == Clip(location.Plus(action.Times(k)))
    ensures InTerrain(location.Plus(action.Times(k))) ==> Moved(root, location, action, stepSize, []) == location.Plus(action.Times(k))
  {
    hide IsRoot, Norm, Limited, Vec.Times, Vec.Plus;
    var j := LimitedIsExact(root, action, stepSize);
    SameMultiple(root, action, j, k);
  }

  /** A move in full: the action, as far as the step size allows, slides along one circle after
      the other, and its end is cut off at the edge of the terrain. */
  lemma MoveIsExact(root: Root, location: Vec, action: Vec, stepSize: real, circles: seq<Circle>, k: real) returns (rays: seq<Vec>)
    requires IsRoot(root) && 0.0 < stepSize && forall c :: c in circles ==> 0.0 <= c.radius
    requires 0.0 <= k && Norm(root, action.Times(k)) == Min(stepSize, Norm(root, action))
    ensures |rays| == |circles| + 1 && rays[0] == action.Times(k)
    ensures forall i :: 0 <= i < |circles| ==> G.MeetsNext(circles, location, rays, true, false, i)
    ensures Moved(root, location, action, stepSize, circles) == Clip(location.Plus(rays[|circles|]))
  {
    hide IsRoot, Norm, Limited, C.Fold, G.MeetsNext, Vec.Times, Vec.Plus, Clip;
    var j := LimitedIsExact(root, action, stepSize);
    SameMultiple(root, action, j, k);
    rays := G.FoldIsSequence(root, circles, location, Limited(root, action, stepSize), true, false);
  }

  /** Cutting off leaves points of the terrain alone, and gives the nearest point of it. */
  lemma ClipIsNearest(root: Root, p: Vec, q: Vec)
    requires IsRoot(root) && InTerrain(p)
    ensures InTerrain(Clip(q)) && (InTerrain(q) ==> Clip(q) == q)
    ensures Norm(root, Clip(q).Minus(q)) <= Norm(root, p.Minus(q))
    ensures Norm(root, p.Minus(q)) == Norm(root, Clip(q).Minus(q)) ==> p == Clip(q)
  {
    hide IsRoot, Norm, Mul, Vec.Square;
    ClampIsNearest(p.x, q.x);
    ClampIsNearest(p.y, q.y);
    SquareAsMul(Clip(q).Minus(q));
    SquareAsMul(p.Minus(q));
    NormOrder(root, Clip(q).Minus(q), p.Minus(q));
    NormOrder(root, p.Minus(q), Clip(q).Minus(q));
  }

  lemma ClampIsNearest(p: real, q: real)
    requires -TERRAIN_SIZE <= p <= TERRAIN_SIZE
    ensures var c := Clamp(q, -TERRAIN_SIZE, TERRAIN_SIZE);
      Mul(c - q, c - q) <= Mul(p - q, p - q) && (p != c ==> Mul(c - q, c - q) < Mul(p - q, p - q))
  {
    hide Mul;
    var c := Clamp(q, -TERRAIN_SIZE, TERRAIN_SIZE);
    MulNegatedSquare(c - q);
    MulNegatedSquare(p - q);
    var d, e := (if c < q then q - c else c - q), if p < q then q - p else p - q;
    RootOrder(d, e);
    RootOrder(e, d);
  }

  lemma ClampIsNearer(p: real, q: real)
    requires -TERRAIN_SIZE <= p <= TERRAIN_SIZE
    ensures Mul(Clamp(q, -TERRAIN_SIZE, TERRAIN_SIZE) - p, Clamp(q, -TERRAIN_SIZE, TERRAIN_SIZE) - p) <= Mul(q - p, q - p)
  {
    hide Mul;
    var d, e := Clamp(q, -TERRAIN_SIZE, TERRAIN_SIZE) - p, q - p;
    if TERRAIN_SIZE < q {
      RootOrder(d, e);
    } else if q < -TERRAIN_SIZE {
      MulNegatedSquare(d);
      MulNegatedSquare(e);
      RootOrder(-d, -e);
    }
  }

  /** Cutting a point off at the edge of the terrain brings it nearer to any point inside. */
  lemma ClipIsNearer(root: Root, p: Vec, q: Vec)
    requires IsRoot(root) && InTerrain(p)
    ensures Norm(root, Clip(q).Minus(p)) <= Norm(root, q.Minus(p))
  {
    hide IsRoot, Norm, Mul, Vec.Square;
    ClampIsNearer(p.x, q.x);
    ClampIsNearer(p.y, q.y);
    SquareAsMul(Clip(q).Minus(p));
    SquareAsMul(q.Minus(p));
    NormOrder(root, Clip(q).Minus(p), q.Minus(p));
  }

  lemma PlusMinus(p: Vec, v: Vec)
    ensures p.Plus(v).Minus(p) == v
  {
  }

  /** A move ends in the terrain and is no longer than the step size, for any obstacles in
      any order. */
  lemma MoveIsBounded(root: Root, location: Vec, action: Vec, stepSize: real, circles: seq<Circle>)
    requires IsRoot(root) && 0.0 < stepSize && InTerrain(location) && forall c :: c in circles ==> 0.0 <= c.radius
    ensures InTerrain(Moved(root, location, action, stepSize, circles))
    ensures Norm(root, Moved(root, location, action, stepSize, circles).Minus(location)) <= stepSize
  {
    hide IsRoot, Norm, Limited;
    var v := Limited(root, action, stepSize);
    var w := C.Fold(root, circles, location, v, true, false);
    LimitedIsShort(root, action, stepSize);
    FoldNeverLonger(root, circles, location, v);
    ClipIsNearer(root, location, location.Plus(w));
    PlusMinus(location, w);
  }

  // ------------------------------------------------------ the index is transparent

  /** The obstacles of a list that satisfy a predicate, in order. */
  ghost function Among(list: seq<Obstacle>, chosen: set<Obstacle>): seq<Obstacle> {
    if list == [] then []
    else
      var before := Among(list[..|list| - 1], chosen);
      if list[|list| - 1] in chosen then before + [list[|list| - 1]] else before
  }

  lemma {:induction false} AmongMembers(list: seq<Obstacle>, chosen: set<Obstacle>)
    ensures forall o :: o in Among(list, chosen) <==> o in list && o in chosen
  {
    if list != [] {
      AmongMembers(list[..|list| - 1], chosen);
      assert list == list[..|list| - 1] + [list[|list| - 1]];
    }
  }

  /** A circle whose square is apart from the square of reach cannot obstruct a ray no
      longer than the reach. */
  lemma ApartIsNoObstacle(root: Root, o: Obstacle, origin: Vec, v: Vec, reach: real)
    requires IsRoot(root) && 0.0 <= o.radius && Norm(root, v) <= reach
    requires Apart(origin, reach, o.location, o.radius + MARGIN)
    ensures Obstructed(root, o.Shape(), origin, v, true, false) == v
  {
    hide IsRoot, Norm, Obstructed;
    OutOfReach(root, o.Shape(), origin, v, true, false);
  }

  lemma ShapesLast(list: seq<Obstacle>, o: Obstacle)
    ensures Shapes(list + [o]) == Shapes(list) + [o.Shape()]
  {
    assert (list + [o])[..|list|] == list;
  }

  lemma ShapesAreCircles(list: seq<Obstacle>)
    requires forall o :: o in list ==> 0.0 <= o.radius
    ensures forall c :: c in Shapes(list) ==> 0.0 <= c.radius
  {
  }

  lemma FoldLast(root: Root, cs: seq<Circle>, c: Circle, origin: Vec, v: Vec)
    requires IsRoot(root) && 0.0 <= c.radius && forall d :: d in cs ==> 0.0 <= d.radius
    ensures C.Fold(root, cs + [c], origin, v, true, false) == Obstructed(root, c, origin, C.Fold(root, cs, origin, v, true, false), true, false)
  {
    hide IsRoot, Obstructed;
    assert (cs + [c])[..|cs|] == cs;
  }

  /** One more obstacle at the end of a list is met last. */
  lemma ScanLast(root: Root, list: seq<Obstacle>, o: Obstacle, origin: Vec, v: Vec)
    requires IsRoot(root) && 0.0 <= o.radius && forall p :: p in list ==> 0.0 <= p.radius
    ensures forall p :: p in list + [o] ==> 0.0 <= p.radius
    ensures Scan(root, list + [o], origin, v) == Obstructed(root, o.Shape(), origin, Scan(root, list, origin, v), true, false)
  {
    hide IsRoot, Obstructed, C.Fold, Shapes;
    ShapesLast(list, o);
    ShapesAreCircles(list);
    FoldLast(root, Shapes(list), o.Shape(), origin, v);
  }

  lemma AmongLast(list: seq<Obstacle>, o: Obstacle, chosen: set<Obstacle>)
    ensures Among(list + [o], chosen) == if o in chosen then Among(list, chosen) + [o] else Among(list, chosen)
  {
    assert (list + [o])[..|list|] == list;
  }

  /** Checking only the chosen obstacles has the same effect as checking all of them in the
      same relative order, if all others are apart. */
  lemma {:induction false} ScanIgnoresFar(root: Root, list: seq<Obstacle>, chosen: set<Obstacle>, origin: Vec, v: Vec, reach: real)
    requires IsRoot(root) && Norm(root, v) <= reach
    requires forall o :: o in list ==> 0.0 <= o.radius
    requires forall o :: o in list && o !in chosen ==> Apart(origin, reach, o.location, o.radius + MARGIN)
    ensures forall o :: o in Among(list, chosen) ==> 0.0 <= o.radius
    ensures Scan(root, list, origin, v) == Scan(root, Among(list, chosen), origin, v)
  {
    hide IsRoot, Norm, Obstructed, Apart, Scan, Among;
    AmongMembers(list, chosen);
    if list == [] {
      AmongNone(chosen);
    } else {
      var before, last := list[..|list| - 1], list[|list| - 1];
      assert list == before + [last] && last in list;
      ScanIgnoresFar(root, before, chosen, origin, v, reach);
      AmongLast(before, last, chosen);
      ScanLast(root, before, last, origin, v);
      if last in chosen {
        ScanLast(root, Among(before, chosen), last, origin, v);
      } else {
        ScanNeverLonger(root, before, origin, v);
        ApartIsNoObstacle(root, last, origin, Scan(root, before, origin, v), reach);
      }
    }
  }

  lemma AmongNone(chosen: set<Obstacle>)
    ensures Among([], chosen) == []
  {
  }

  lemma ScanNeverLonger(root: Root, list: seq<Obstacle>, origin: Vec, v: Vec)
    requires IsRoot(root) && forall o :: o in list ==> 0.0 <= o.radius
    ensures Norm(root, Scan(root, list, origin, v)) <= Norm(root, v)
  {
    hide IsRoot, Norm, C.Fold, Shapes;
    ShapesAreCircles(list);
    FoldNeverLonger(root, Shapes(list), origin, v);
  }

  /** An obstacle that is not found is apart from the target. */
  lemma NotFoundIsApart(index: ObstacleIndex, o: Obstacle, p: Vec, reach: real)
    requires index.Valid() && o in index.obstacles && 0.0 <= reach && !index.Found(o, p, reach)
    ensures Apart(p, reach, o.location, o.radius + MARGIN)
  {
    if !Apart(p, reach, o.location, o.radius + MARGIN) {
      CloseIsFound(index, o, p, reach);
    }
  }

  lemma CloseIsFound(index: ObstacleIndex, o: Obstacle, p: Vec, reach: real)
    requires index.Valid() && o in index.obstacles && 0.0 <= reach && !Apart(p, reach, o.location, o.radius + MARGIN)
    ensures index.Found(o, p, reach)
  {
    var key := SharedCell(p, reach, o.location, o.radius + MARGIN);
    assert o in Cell(index.cells, (key.0, key.1));
  }

  /** A listing of a set without repetition. */
  ghost predicate Lists(list: seq<Obstacle>, s: set<Obstacle>) {
    && (set o | o in list) == s
    && (forall i, j :: 0 <= i < j < |list| ==> list[i] != list[j])
  }

  lemma ListsOneMore(list: seq<Obstacle>, o: Obstacle, s: set<Obstacle>)
    requires Lists(list, s) && o !in s
    ensures Lists(list + [o], s + {o})
  {
    assert o !in (set p | p in list);
    assert (set p | p in list + [o]) == (set p | p in list) + {o};
  }

  lemma ScanNone(root: Root, origin: Vec, v: Vec)
    requires IsRoot(root)
    ensures Scan(root, [], origin, v) == v && Lists([], {})
  {
    assert (set o: Obstacle | o in []) == {};
  }

  /** The grid is transparent: in whatever order all registered obstacles are listed, a move
      that checks only those found nearby, in the same relative order, ends at the same
      place as a move that checks all of them. */
  lemma IndexIsTransparent(root: Root, index: ObstacleIndex, location: Vec, action: Vec, stepSize: real, all: seq<Obstacle>)
    requires IsRoot(root) && index.Valid() && 0.0 < stepSize && Lists(all, index.obstacles)
    ensures var few := Among(all, index.Nearby(location, stepSize));
      && (forall o :: o in all ==> 0.0 <= o.radius)
      && (forall o :: o in few ==> 0.0 <= o.radius)
      && Moved(root, location, action, stepSize, Shapes(few)) == Moved(root, location, action, stepSize, Shapes(all))
  {
    hide IsRoot, Norm, Limited, Apart;
    var near := index.Nearby(location, stepSize);
    forall o | o in all
      ensures 0.0 <= o.radius
      ensures o in near || Apart(location, stepSize, o.location, o.radius + MARGIN)
    {
      assert o in (set p | p in all);
      if o !in near {
        NotFoundIsApart(index, o, location, stepSize);
      }
    }
    LimitedIsShort(root, action, stepSize);
    ScanIgnoresFar(root, all, near, location, Limited(root, action, stepSize), stepSize);
  }

  /** Any order in which the nearby obstacles are met is part of an order of all of them. */
  lemma CompleteListing(order: seq<Obstacle>, s: set<Obstacle>, all: set<Obstacle>) returns (list: seq<Obstacle>)
    requires Lists(order, s) && s <= all
    ensures Lists(list, all) && Among(list, s) == order
    decreases all - s
  {
    list := order;
    var rest := all - s;
    AmongAll(order, s);
    while rest != {}
      invariant rest <= all - s && Lists(list, all - rest) && Among(list, s) == order
      decreases rest
    {
      var o :| o in rest;
      ListsOneMore(list, o, all - rest);
      AmongLast(list, o, s);
      assert all - (rest - {o}) == all - rest + {o};
      list := list + [o];
      rest := rest - {o};
    }
  }

  lemma {:induction false} AmongAll(list: seq<Obstacle>, s: set<Obstacle>)
    requires forall o :: o in list ==> o in s
    ensures Among(list, s) == list
  {
    if list != [] {
      AmongAll(list[..|list| - 1], s);
    }
  }

  // --------------------------------------------------------------------- journeys

  /** One move of a target: what was asked for, and the circles it met. */
  datatype Move = Move(action: Vec, stepSize: real, circles: seq<Circle>)

  ghost predicate ValidMove(m: Move) {
    0.0 < m.stepSize && forall c :: c in m.circles ==> 0.0 <= c.radius
  }

  ghost function Journey(root: Root, start: Vec, moves: seq<Move>): Vec
    requires IsRoot(root) && forall k :: 0 <= k < |moves| ==> ValidMove(moves[k])
  {
    if moves == [] then start
    else
      var m := moves[|moves| - 1];
      assert ValidMove(m);
      Moved(root, Journey(root, start, moves[..|moves| - 1]), m.action, m.stepSize, m.circles)
  }

  ghost function Range(moves: seq<Move>): real {
    if moves == [] then 0.0 else Range(moves[..|moves| - 1]) + moves[|moves| - 1].stepSize
  }

  /** Over any number of moves a target stays in the terrain and gets no farther than the
      sum of its step sizes. */
  lemma {:induction false} JourneyIsBounded(root: Root, start: Vec, moves: seq<Move>)
    requires IsRoot(root) && InTerrain(start) && forall k :: 0 <= k < |moves| ==> ValidMove(moves[k])
    ensures InTerrain(Journey(root, start, moves))
    ensures Norm(root, Journey(root, start, moves).Minus(start)) <= Range(moves)
  {
    hide IsRoot, Norm, Moved, InTerrain;
    if moves == [] {
      NothingMoved(root, start);
    } else {
      var n := |moves| - 1;
      var m, before := moves[n], Journey(root, start, moves[..n]);
      JourneyIsBounded(root, start, moves[..n]);
      MoveIsBounded(root, before, m.action, m.stepSize, m.circles);
      var after := Moved(root, before, m.action, m.stepSize, m.circles);
      TwoLegs(start, before, after);
      Triangle(root, before.Minus(start), after.Minus(before));
    }
  }

  lemma NothingMoved(root: Root, p: Vec)
    requires IsRoot(root)
    ensures Norm(root, p.Minus(p)) <= 0.0
  {
    hide Norm, IsRoot;
    assert p.Minus(p) == ZERO;
    NormFacts(root, p.Minus(p));
  }

  lemma TwoLegs(p: Vec, q: Vec, r: Vec)
    ensures q.Minus(p).Plus(r.Minus(q)) == r.Minus(p)
  {
  }

  /** The end is not where the action leads, limited by the step size. */
  ghost predicate Misses(root: Root, end: Vec, start: Vec, action: Vec, stepSize: real) {
    exists k: real :: 0.0 <= k && Norm(root, action.Times(k)) == Min(stepSize, Norm(root, action)) && FarApart(end, start.Plus(action.Times(k)))
  }

  /** The desired end is where the action leads, limited by the step size. */
  lemma CollisionIs(root: Root, start: Vec, action: Vec, stepSize: real, end: Vec)
    requires IsRoot(root) && 0.0 < stepSize
    ensures !Close(end, start.Plus(Limited(root, action, stepSize)))
      <==> Misses(root, end, start, action, stepSize)
  {
    hide IsRoot, Norm, Limited, Vec.Times, Vec.Plus;
    var j := LimitedIsExact(root, action, stepSize);
    forall k: real | 0.0 <= k && Norm(root, action.Times(k)) == Min(stepSize, Norm(root, action))
      ensures action.Times(k) == action.Times(j)
    {
      SameMultiple(root, action, j, k);
    }
  }

  // ------------------------------------------------------------------- the target

  class Target {
    var location: Vec
    var stepSize: real
    var isColliding: bool

    constructor (location: Vec, stepSize: real)
      requires 0.0 < stepSize && InTerrain(location)
      ensures this.location == location && this.stepSize == stepSize
    {
      this.location := location;
      this.stepSize := stepSize;
      this.isColliding := false;
    }

    /** Moves the target.  Only the obstacles found in the nearby cells are checked, in the
        arbitrary order of a set; the target moves as if it had checked all registered
        obstacles, in an order that is returned as a witness. */
    method Simulate(root: Root, action: Vec, index: ObstacleIndex) returns (ghost all: seq<Obstacle>)
      requires IsRoot(root) && index.Valid() && 0.0 < stepSize
      modifies this, index
      ensures index.Valid() && index.obstacles == old(index.obstacles) && stepSize == old(stepSize)
      ensures Lists(all, index.obstacles) && forall o :: o in all ==> 0.0 <= o.radius
      ensures location == Moved(root, old(location), action, stepSize, Shapes(all))
      ensures isColliding <==> !Close(location, old(location).Plus(Limited(root, action, stepSize)))
      ensures isColliding <==> Misses(root, location, old(location), action, stepSize)
    {
      hide IsRoot, Norm, Obstructed, Quot, C.Fold, Shapes, Lists, Among, Clip, Close;
      NormFacts(root, action);
      var step := new Vector2D(action, location);
      if Norm(root, action) > stepSize {
        step.SetNorm(root, stepSize);
      }
      ghost var v := Limited(root, action, stepSize);
      assert step.vector == v;
      var desired := step.Endpoint();
      ghost var order := [];
      ghost var near := index.Nearby(location, stepSize);
      if index.obstacles != {} {
        var found := index.Collect(location, stepSize);
        step, order := Avoid(root, step, index, found);
      } else {
        ScanNone(root, location, v);
      }
      assert step.vector == Scan(root, order, location, v);
      all := CompleteListing(order, near, index.obstacles);
      IndexIsTransparent(root, index, location, action, stepSize, all);
      ghost var start := location;
      location := Clip(step.Endpoint());
      isColliding := !Close(location, desired);
      CollisionIs(root, start, action, stepSize, location);
    }

    /** The ray meets all the given obstacles, in an arbitrary order. */
    static method Avoid(root: Root, ray: Vector2D, index: ObstacleIndex, found: set<Obstacle>) returns (step: Vector2D, ghost order: seq<Obstacle>)
      requires IsRoot(root) && index.Valid() && found <= index.obstacles
      modifies ray
      ensures Lists(order, found) && forall o :: o in order ==> 0.0 <= o.radius
      ensures step.origin == ray.origin
      ensures step.vector == Scan(root, order, ray.origin, old(ray.vector))
      ensures index.Valid()
    {
      hide IsRoot, Norm, Obstructed, Scan, Lists;
      step, order := ray, [];
      ScanNone(root, ray.origin, ray.vector);
      assert found - found == {};
      var rest := found;
      while rest != {}
        invariant step == ray || fresh(step)
        invariant step.origin == ray.origin
        invariant rest <= found && Lists(order, found - rest)
        invariant forall o :: o in order ==> 0.0 <= o.radius
        invariant step.vector == Scan(root, order, ray.origin, old(ray.vector))
        decreases rest
      {
        var o :| o in rest;
        step := Obstruct(root, o.Shape(), step, true, false);
        ScanLast(root, order, o, ray.origin, old(ray.vector));
        ListsOneMore(order, o, found - rest);
        assert found - (rest - {o}) == found - rest + {o};
        order := order + [o];
        rest := rest - {o};
      }
      assert found - rest == found;
    }
  }

  /** Two points differ by more than the tolerance in some coordinate. */
  predicate FarApart(p: Vec, q: Vec) {
    p.x - q.x > TOLERANCE || q.x - p.x > TOLERANCE || p.y - q.y > TOLERANCE || q.y - p.y > TOLERANCE
  }

  /** Two points are the same up to the tolerance in both coordinates. */
  predicate Close(p: Vec, q: Vec) {
    && -TOLERANCE <= p.x - q.x <= TOLERANCE
    && -TOLERANCE <= p.y - q.y <= TOLERANCE
  }
}
