/** The grid in which targets look up the obstacles near them. */
module SpatialHash {
  import opened Vectors
  import opened Obstruction

  const GRID_STEP: real := 25.0
  const MARGIN: real := 0.00001

  /** Conversion to an integer cuts off the fraction: it rounds towards zero. */
  function Trunc(r: real): int {
    if 0.0 <= r then r.Floor else -((-r).Floor)
  }

  lemma TruncMonotone(a: real, b: real)
    requires a <= b
    ensures Trunc(a) <= Trunc(b)
  {
  }

  function HashKey(p: Vec): (int, int) {
    (Trunc(p.x / GRID_STEP), Trunc(p.y / GRID_STEP))
  }

  /** A key tells how many whole grid steps a point is away from the axes, towards zero. */
  lemma KeyIsTowardsZero(p: Vec)
    ensures Within(HashKey(p).0, p.x) && Within(HashKey(p).1, p.y)
  {
    TowardsZero(p.x);
    TowardsZero(p.y);
  }

  predicate Within(k: int, a: real) {
    if 0.0 <= a then GRID_STEP * k as real <= a < GRID_STEP * (k + 1) as real
    else GRID_STEP * (k - 1) as real < a <= GRID_STEP * k as real
  }

  lemma TowardsZero(a: real)
    ensures Within(Trunc(a / GRID_STEP), a)
  {
  }

  class Obstacle {
    const location: Vec
    const radius: real

    constructor (location: Vec, radius: real)
      requires 0.0 <= radius
      ensures this.location == location && this.radius == radius
    {
      this.location := location;
      this.radius := radius;
    }

    function Shape(): Circle { Circle(location, radius) }
  }

  /** The cells touched by the square around a point. */
  function Lowest(p: Vec, reach: real): (int, int) { HashKey(Vec(p.x - reach, p.y - reach)) }
  function Highest(p: Vec, reach: real): (int, int) { HashKey(Vec(p.x + reach, p.y + reach)) }

  predicate InRange(key: (int, int), p: Vec, reach: real) {
    && Lowest(p, reach).0 <= key.0 <= Highest(p, reach).0
    && Lowest(p, reach).1 <= key.1 <= Highest(p, reach).1
  }

  /** A cell of the map; a cell that was never written is empty. */
  function Cell(cells: map<(int, int), set<Obstacle>>, key: (int, int)): set<Obstacle> {
    if key in cells then cells[key] else {}
  }

  /** Some cell with a column from a up to b and a row from c up to d holds o. */
  ghost predicate HeldIn(cells: map<(int, int), set<Obstacle>>, o: Obstacle, a: int, b: int, c: int, d: int) {
    exists ix: int, iy: int :: a <= ix < b && c <= iy < d && o in Cell(cells, (ix, iy))
  }

  /** The two squares do not overlap along one of the axes. */
  predicate Apart(p: Vec, reach: real, q: Vec, reach': real) {
    || p.x + reach < q.x - reach' || q.x + reach' < p.x - reach
    || p.y + reach < q.y - reach' || q.y + reach' < p.y - reach
  }

  lemma RangesMeet(p: real, reach: real, q: real, reach': real) returns (k: int)
    requires 0.0 <= reach && 0.0 <= reach' && q - reach' <= p + reach && p - reach <= q + reach'
    ensures Trunc((p - reach) / GRID_STEP) <= k <= Trunc((p + reach) / GRID_STEP)
    ensures Trunc((q - reach') / GRID_STEP) <= k <= Trunc((q + reach') / GRID_STEP)
  {
    TruncMonotone((p - reach) / GRID_STEP, (p + reach) / GRID_STEP);
    TruncMonotone((q - reach') / GRID_STEP, (q + reach') / GRID_STEP);
    TruncMonotone((q - reach') / GRID_STEP, (p + reach) / GRID_STEP);
    TruncMonotone((p - reach) / GRID_STEP, (q + reach') / GRID_STEP);
    var a, b := Trunc((p - reach) / GRID_STEP), Trunc((q - reach') / GRID_STEP);
    k := if a <= b then b else a;
  }

  /** Squares that overlap share a cell; so squares without a common cell are apart. */
  lemma SharedCell(p: Vec, reach: real, q: Vec, reach': real) returns (key: (int, int))
    requires 0.0 <= reach && 0.0 <= reach' && !Apart(p, reach, q, reach')
    ensures InRange(key, p, reach) && InRange(key, q, reach')
  {
    var ix := RangesMeet(p.x, reach, q.x, reach');
    var iy := RangesMeet(p.y, reach, q.y, reach');
    key := (ix, iy);
  }

  /** The obstacles known to all targets, listed and spread over the grid. */
  class ObstacleIndex {
    var cells: map<(int, int), set<Obstacle>>
    var obstacles: set<Obstacle>

    constructor ()
      ensures Valid() && obstacles == {}
    {
      cells, obstacles := map[], {};
    }

    /** Every listed obstacle is in all cells its square touches, and cells hold nothing else. */
    ghost predicate Valid()
      reads this
    {
      && (forall o :: o in obstacles ==> 0.0 <= o.radius)
      && (forall key :: key in cells ==> cells[key] <= obstacles)
      && (forall o, key :: o in obstacles && InRange(key, o.location, o.radius + MARGIN) ==> o in Cell(cells, key))
    }

    /** The obstacles found in the cells around a point. */
    ghost predicate Found(o: Obstacle, p: Vec, reach: real)
      reads this
    {
      HeldIn(cells, o, Lowest(p, reach).0, Highest(p, reach).0 + 1, Lowest(p, reach).1, Highest(p, reach).1 + 1)
    }

    /** The registered obstacles that a target with the given reach finds around it. */
    ghost function Nearby(p: Vec, reach: real): set<Obstacle>
      reads this
    {
      set o | o in obstacles && Found(o, p, reach)
    }

    method Clear()
      modifies this
      ensures Valid() && obstacles == {}
    {
      cells, obstacles := map[], {};
    }

    /** Writes one obstacle into the cells its square touches, row by row. */
    method Spread(o: Obstacle)
      requires Valid() && 0.0 <= o.radius
      modifies this`cells
      ensures forall key :: Cell(cells, key) == Cell(old(cells), key) + if InRange(key, o.location, o.radius + MARGIN) then {o} else {}
    {
      var (ixLow, iyLow) := Lowest(o.location, o.radius + MARGIN);
      var (ixHigh, iyHigh) := Highest(o.location, o.radius + MARGIN);
      var ix := ixLow;
      while ix <= ixHigh
        invariant ixLow <= ix
        invariant forall key :: Cell(cells, key) == Cell(old(cells), key) + Fill(o, key, ixLow, ix, ixHigh, iyLow, iyHigh + 1, iyHigh)
        decreases ixHigh - ix
      {
        var iy := iyLow;
        while iy <= iyHigh
          invariant iyLow <= iy
          invariant forall key ::
            Cell(cells, key) == Cell(old(cells), key) + Fill(o, key, ixLow, ix, ixHigh, iyLow, iyHigh + 1, iyHigh) + Fill(o, key, ix, ix + 1, ixHigh, iyLow, iy, iyHigh)
          decreases iyHigh - iy
        {
          cells := cells[(ix, iy) := Cell(cells, (ix, iy)) + {o}];
          iy := iy + 1;
        }
        ix := ix + 1;
      }
    }

    /** What has been written into a cell once columns from a up to b and rows from c up to d are done. */
    ghost function Fill(o: Obstacle, key: (int, int), a: int, b: int, high: int, c: int, d: int, top: int): set<Obstacle> {
      if a <= key.0 < b && key.0 <= high && c <= key.1 < d && key.1 <= top then {o} else {}
    }

    /** Registers obstacles; one that is already listed is skipped. */
    method Add(list: seq<Obstacle>)
      requires Valid() && forall o :: o in list ==> 0.0 <= o.radius
      modifies this
      ensures Valid()
      ensures obstacles == old(obstacles) + set o | o in list
    {
      for i := 0 to |list|
        invariant Valid()
        invariant obstacles == old(obstacles) + set o | o in list[..i]
      {
        var o := list[i];
        assert list[..i + 1] == list[..i] + [o];
        if o !in obstacles {
          ghost var before := cells;
          Spread(o);
          obstacles := obstacles + {o};
          forall key | key in cells
            ensures cells[key] <= obstacles
          {
            assert Cell(cells, key) == Cell(before, key) + if InRange(key, o.location, o.radius + MARGIN) then {o} else {};
          }
        }
      }
      assert list[..|list|] == list;
    }

    /** Reading a cell creates it, as the map of the program does. */
    method Lookup(key: (int, int)) returns (s: set<Obstacle>)
      modifies this`cells
      ensures s == Cell(cells, key)
      ensures forall k :: Cell(cells, k) == Cell(old(cells), k)
    {
      if key !in cells {
        cells := cells[key := {}];
      }
      s := cells[key];
    }

    /** All obstacles found in the cells around a point. */
    method Collect(p: Vec, reach: real) returns (found: set<Obstacle>)
      requires Valid()
      modifies this`cells
      ensures Valid()
      ensures found == Nearby(p, reach) == old(Nearby(p, reach))
    {
      found := {};
      var (ixLow, iyLow) := Lowest(p, reach);
      var (ixHigh, iyHigh) := Highest(p, reach);
      var ix := ixLow;
      while ix <= ixHigh
        invariant forall k :: Cell(cells, k) == Cell(old(cells), k)
        invariant ix <= ixHigh + 1 || ix == ixLow
        invariant forall o :: o in found <==> HeldIn(cells, o, ixLow, ix, iyLow, iyHigh + 1)
        decreases ixHigh - ix
      {
        var column := CollectColumn(ix, iyLow, iyHigh);
        forall o
          ensures o in found + column <==> HeldIn(cells, o, ixLow, ix + 1, iyLow, iyHigh + 1)
        {
          assert HeldIn(cells, o, ix, ix + 1, iyLow, iyHigh + 1) <==> o in column;
        }
        found := found + column;
        ix := ix + 1;
      }
      forall key | key in cells
        ensures cells[key] <= obstacles
      {
        assert Cell(cells, key) == Cell(old(cells), key);
      }
      forall o | o in found
        ensures o in obstacles
      {
        var jx, jy :| ixLow <= jx < ixHigh + 1 && iyLow <= jy < iyHigh + 1 && o in Cell(cells, (jx, jy));
        assert (jx, jy) in cells;
      }
      forall o | o in obstacles
        ensures Found(o, p, reach) <==> old(Found(o, p, reach))
      {
      }
    }

    method CollectColumn(ix: int, iyLow: int, iyHigh: int) returns (found: set<Obstacle>)
      modifies this`cells
      ensures forall k :: Cell(cells, k) == Cell(old(cells), k)
      ensures forall o :: o in found <==> HeldIn(cells, o, ix, ix + 1, iyLow, iyHigh + 1)
    {
      found := {};
      var iy := iyLow;
      while iy <= iyHigh
        invariant iyLow <= iy
        invariant forall k :: Cell(cells, k) == Cell(old(cells), k)
        invariant forall o :: o in found <==> HeldIn(cells, o, ix, ix + 1, iyLow, if iy <= iyHigh then iy else iyHigh + 1)
        decreases iyHigh - iy
      {
        var more := Lookup((ix, iy));
        forall o
          ensures o in found + more <==> HeldIn(cells, o, ix, ix + 1, iyLow, iy + 1)
        {
          if o in more {
            assert o in Cell(cells, (ix, iy));
          }
        }
        found := found + more;
        iy := iy + 1;
      }
    }
  }

  /** Ranges of keys that meet belong to stretches no farther apart than two grid steps. */
  lemma MeetingRangesAreNear(p: real, reach: real, q: real, reach': real, k: int)
    requires 0.0 <= reach && 0.0 <= reach'
    requires Trunc((p - reach) / GRID_STEP) <= k <= Trunc((p + reach) / GRID_STEP)
    requires Trunc((q - reach') / GRID_STEP) <= k <= Trunc((q + reach') / GRID_STEP)
    ensures -(reach + reach' + 2.0 * GRID_STEP) < q - p < reach + reach' + 2.0 * GRID_STEP
  {
    TowardsZero(p - reach);
    TowardsZero(p + reach);
    TowardsZero(q - reach');
    TowardsZero(q + reach');
  }

  /** Squares that share a cell are near each other, so the grid does not list everything. */
  lemma SharedCellIsNear(p: Vec, reach: real, q: Vec, reach': real, key: (int, int))
    requires 0.0 <= reach && 0.0 <= reach' && InRange(key, p, reach) && InRange(key, q, reach')
    ensures !Apart(p, reach + 2.0 * GRID_STEP, q, reach')
  {
    MeetingRangesAreNear(p.x, reach, q.x, reach', key.0);
    MeetingRangesAreNear(p.y, reach, q.y, reach', key.1);
  }
}
