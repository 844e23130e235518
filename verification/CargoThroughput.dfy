/** How much cargo can be delivered in a given time: a target that carries two units is half
    as fast, so no target delivers faster than its step size allows, whatever the cameras,
    the obstacles and the random numbers do. */
module CargoThroughput {
  import opened Reals
  import opened Sums
  import opened Vectors
  import opened Terrain
  import opened CargoEconomy
  import opened CargoInvariants
  import opened CargoReset
  import opened CargoSteps
  import opened CargoRuns
  import opened CargoJourneys

  // --------------------------------------------------------------- where loads come from

  /** A goal other than the one before was chosen at a warehouse where the target stands,
      and is another warehouse. */
  predicate GoalIsElsewhere(before: int, after: int, inside: seq<bool>) {
    after == before || after < 0 || exists w :: 0 <= w < |inside| && inside[w] && w != after
  }

  lemma ServeSendsElsewhere(cfg: Config, o: Outcome, t: nat, inside: seq<bool>, draw: (nat, nat) -> nat)
    requires Shaped(cfg, o.state) && t < cfg.numTargets && |inside| == NUM_WAREHOUSES
    requires NoSelfCargo(o.state.remaining)
    ensures GoalIsElsewhere(o.state.rows[t].goal, Serve(cfg, o, t, inside, draw).state.rows[t].goal, inside)
  {
  }

  lemma {:induction false} ServeFirstSendsElsewhere(cfg: Config, o: Outcome, n: nat, input: Input, t: nat)
    requires Shaped(cfg, o.state) && ShapedInput(cfg, input) && NoSelfCargo(o.state.remaining)
    requires n <= cfg.numTargets && t < n
    ensures GoalIsElsewhere(o.state.rows[t].goal, ServeFirst(cfg, o, n, input).state.rows[t].goal, input.inside[t])
  {
    hide Serve, GoalIsElsewhere;
    var before := ServeFirst(cfg, o, n - 1, input);
    if t == n - 1 {
      ServeFirstNoSelfCargo(cfg, o, t, input);
      ServeFirstFrame(cfg, o, t, input);
      ServeSendsElsewhere(cfg, before, t, input.inside[t], input.draw);
    } else {
      ServeFirstSendsElsewhere(cfg, o, n - 1, input, t);
      ServeOthers(cfg, before, n - 1, input.inside[n - 1], input.draw, t);
    }
  }

  lemma StepSendsElsewhere(cfg: Config, s: State, input: Input, t: nat)
    requires Shaped(cfg, s) && ShapedInput(cfg, input) && NoSelfCargo(s.remaining) && t < cfg.numTargets
    ensures GoalIsElsewhere(s.rows[t].goal, Step(cfg, s, input).rows[t].goal, input.inside[t])
  {
    hide ServeFirst, GoalIsElsewhere;
    ServeFirstSendsElsewhere(cfg, Opened(s, input.tracked), cfg.numTargets, input, t);
  }

  /** Standing at the goal changes it, and nothing else does for a loaded target. */
  lemma StepMovesGoal(cfg: Config, s: State, input: Input, total: int, t: nat)
    requires ValidConfig(cfg) && Invariant(cfg, s, total) && ShapedInput(cfg, input) && t < cfg.numTargets
    requires 0 <= s.rows[t].goal
    ensures Step(cfg, s, input).rows[t].goal != s.rows[t].goal <==> AtGoal(s.rows[t], input.inside[t])
  {
    hide ServeFirst;
    GoalsMove(cfg, Opened(s, input.tracked), cfg.numTargets, input, t);
  }

  // ------------------------------------------------------------------ one target's account

  /** How far a point is from the square of a warehouse along one axis. */
  function Gap(p: Vec, w: nat): real { if Away(p, w) < 0.0 then 0.0 else Away(p, w) }

  /** Having delivered some units, a target has had time for it: each load but the first
      took it across the gap between two warehouses, and the present one is under way. */
  predicate OnTime(capacity: nat, goal: int, place: Vec, units: int, way: real) {
    && WAREHOUSE_GAP * (units - capacity) as real <= way
    && (0 <= goal < NUM_WAREHOUSES ==> WAREHOUSE_GAP * units as real - capacity as real * Gap(place, goal) <= way)
  }

  lemma OnTimeAtFirst(capacity: nat, goal: int, place: Vec)
    ensures OnTime(capacity, goal, place, 0, 0.0)
  {
  }

  /** A target under way keeps to the account. */
  lemma OnTimeUnderWay(capacity: nat, goal: int, p: Vec, q: Vec, units: int, way: real, stepSize: real)
    requires 1 <= capacity <= 2 && 0.0 < stepSize && -1 <= goal < NUM_WAREHOUSES
    requires OnTime(capacity, goal, p, units, way)
    requires 0 <= goal ==> Away(p, goal) - Pace(stepSize, capacity) <= Away(q, goal)
    ensures OnTime(capacity, goal, q, units, way + stepSize)
  {
    hide Away;
    PaceIsPositive(stepSize, capacity);
  }

  /** Reaching the goal has taken the time; so units may be added up to the capacity. */
  lemma OnTimeAtGoal(capacity: nat, goal: int, p: Vec, q: Vec, units: int, more: nat, way: real, stepSize: real)
    requires 1 <= capacity <= 2 && 0.0 < stepSize && 0 <= goal < NUM_WAREHOUSES && more <= capacity
    requires OnTime(capacity, goal, p, units, way)
    requires Away(p, goal) - Pace(stepSize, capacity) <= Away(q, goal) && StandsIn(q, goal)
    ensures OnTime(capacity, -1, q, units + more, way + stepSize)
  {
    hide Away, Pace, Gap;
    PaceIsPositive(stepSize, capacity);
    GapIsCovered(p, q, goal, Pace(stepSize, capacity));
    TimesCapacity(capacity, Gap(p, goal), Pace(stepSize, capacity));
  }

  lemma GapIsCovered(p: Vec, q: Vec, goal: nat, pace: real)
    requires goal < NUM_WAREHOUSES && 0.0 < pace && Away(p, goal) - pace <= Away(q, goal) && StandsIn(q, goal)
    ensures Gap(p, goal) <= pace
  {
    hide Away;
  }

  lemma TimesCapacity(capacity: nat, gap: real, pace: real)
    requires 1 <= capacity <= 2 && gap <= pace
    ensures capacity as real * gap <= pace * capacity as real
  {
    if capacity == 1 {
      assert 1.0 * gap == gap;
    }
  }

  /** A new load may be taken at once: its goal is across the gap. */
  lemma OnTimeWithLoad(capacity: nat, goal: int, q: Vec, units: int, way: real, w: nat)
    requires 1 <= capacity <= 2 && 0 <= goal < NUM_WAREHOUSES
    requires OnTime(capacity, -1, q, units, way)
    requires w < NUM_WAREHOUSES && StandsIn(q, w) && w != goal
    ensures OnTime(capacity, goal, q, units, way)
  {
    hide Away;
    WarehousesAreApart(q, w, goal);
    if capacity == 1 {
      assert 1.0 * Gap(q, goal) == Gap(q, goal);
    }
  }

  /** One call of one target, which hands over more units if it reaches its goal. */
  lemma OnTimeAfterCall(capacity: nat, goal: int, goal': int, p: Vec, q: Vec, units: int, more: nat, way: real, stepSize: real)
    requires 1 <= capacity <= 2 && 0.0 < stepSize && -1 <= goal < NUM_WAREHOUSES && -1 <= goal' < NUM_WAREHOUSES
    requires OnTime(capacity, goal, p, units, way) && more <= capacity
    requires 0 <= goal ==> Away(p, goal) - Pace(stepSize, capacity) <= Away(q, goal)
    requires 0 <= goal ==> (goal' != goal <==> StandsIn(q, goal))
    requires 0 < more ==> 0 <= goal && StandsIn(q, goal)
    requires 0 <= goal' && goal' != goal ==> exists w :: 0 <= w < NUM_WAREHOUSES && StandsIn(q, w) && w != goal'
    ensures OnTime(capacity, goal', q, units + more, way + stepSize)
  {
    hide Away, Pace, OnTime;
    if 0 <= goal && StandsIn(q, goal) {
      OnTimeAtGoal(capacity, goal, p, q, units, more, way, stepSize);
    } else {
      OnTimeUnderWay(capacity, goal, p, q, units, way, stepSize);
    }
    if goal' != goal {
      if 0 <= goal' {
        var w :| 0 <= w < NUM_WAREHOUSES && StandsIn(q, w) && w != goal';
        OnTimeWithLoad(capacity, goal', q, units + more, way + stepSize, w);
      }
    }
  }

  // --------------------------------------------------------------------- whole episodes

  /** The units each target has delivered. */
  ghost function Units(world: World, start: Scene, calls: seq<Call>): (units: seq<int>)
    requires ValidWorld(world) && ValidScene(world, start) && ValidCalls(world, calls)
    ensures |units| == world.cfg.numTargets
  {
    if calls == [] then seq(world.cfg.numTargets, t requires 0 <= t < world.cfg.numTargets => 0)
    else
      var last := calls[|calls| - 1];
      assert ValidCall(world, last);
      var before := Play(world, start, calls[..|calls| - 1]);
      AddedUp(Units(world, start, calls[..|calls| - 1]), HandedAll(before.state.rows, InputOf(world, before, last).inside))
  }

  function AddedUp(a: seq<int>, b: seq<int>): seq<int>
    requires |a| == |b|
  {
    seq(|a|, t requires 0 <= t < |a| => a[t] + b[t])
  }

  /** How far a number of steps would take a target. */
  function Way(n: nat, stepSize: real): real { n as real * stepSize }

  /** All targets keep to the account, and their units are all that has been delivered. */
  ghost predicate AllOnTime(world: World, scene: Scene, units: seq<int>, n: nat)
    requires ValidScene(world, scene)
  {
    && |units| == world.cfg.numTargets
    && scene.state.delivered == Sum(units)
    && (forall t :: 0 <= t < world.cfg.numTargets ==> TargetOnTime(world, scene, units, n, t))
  }

  predicate TargetOnTime(world: World, scene: Scene, units: seq<int>, n: nat, t: nat)
    requires |scene.places| == |scene.state.rows| == |units| == world.cfg.numTargets && t < world.cfg.numTargets
  {
    var r := scene.state.rows[t];
    && 1 <= r.capacity <= 2 && -1 <= r.goal < NUM_WAREHOUSES
    && OnTime(r.capacity, r.goal, scene.places[t], units[t], Way(n, world.stepSize))
  }

  /** One call keeps one target's account. */
  lemma TargetStaysOnTime(world: World, scene: Scene, call: Call, units: seq<int>, n: nat, t: nat, total: int)
    requires ValidWorld(world) && ValidScene(world, scene) && ValidCall(world, call) && t < world.cfg.numTargets
    requires Invariant(world.cfg, scene.state, total) && |units| == world.cfg.numTargets
    requires TargetOnTime(world, scene, units, n, t)
    ensures TargetOnTime(world, Next(world, scene, call), AddedUp(units, HandedAll(scene.state.rows, InputOf(world, scene, call).inside)), n + 1, t)
  {
    hide Step, Invariant, Away, Pace, OnTime, Places, InputOf, Norm, IsRoot, ValidConfig, Way;
    var cfg, input, next := world.cfg, InputOf(world, scene, call), Next(world, scene, call);
    var r := scene.state.rows[t];
    StepKeepsCapacity(cfg, scene.state, input, t);
    LoadsFit(cfg, scene.state, total, t);
    StepMoves(world, scene, call, total, t);
    WayGrows(n, world.stepSize);
    OnTimeAfterCall(r.capacity, r.goal, next.state.rows[t].goal, scene.places[t], next.places[t],
      units[t], Handed(r, input.inside[t]), Way(n, world.stepSize), world.stepSize);
  }

  lemma WayGrows(n: nat, stepSize: real)
    ensures Way(n + 1, stepSize) == Way(n, stepSize) + stepSize
  {
  }

  lemma LoadsFit(cfg: Config, s: State, total: int, t: nat)
    requires Invariant(cfg, s, total) && t < cfg.numTargets
    ensures 1 <= s.rows[t].capacity <= 2 && Weight(s.rows[t]) <= s.rows[t].capacity
    ensures NoSelfCargo(s.remaining)
  {
    RowIsSound(cfg, s, total, t);
  }

  /** What a call does to the goal of a target, seen from where it ends up. */
  lemma StepMoves(world: World, scene: Scene, call: Call, total: int, t: nat)
    requires ValidWorld(world) && ValidScene(world, scene) && ValidCall(world, call) && t < world.cfg.numTargets
    requires Invariant(world.cfg, scene.state, total)
    ensures var next := Next(world, scene, call);
      var goal, goal' := scene.state.rows[t].goal, next.state.rows[t].goal;
      && -1 <= goal' < NUM_WAREHOUSES
      && (0 <= goal ==> Away(scene.places[t], goal) - Pace(world.stepSize, scene.state.rows[t].capacity) <= Away(next.places[t], goal))
      && (AtGoal(scene.state.rows[t], InputOf(world, scene, call).inside[t]) <==> 0 <= goal && StandsIn(next.places[t], goal))
      && (0 <= goal ==> (goal' != goal <==> StandsIn(next.places[t], goal)))
      && (0 <= goal' && goal' != goal ==> exists w :: 0 <= w < NUM_WAREHOUSES && StandsIn(next.places[t], w) && w != goal')
  {
    hide Step, Invariant, Away, Pace, Norm, IsRoot;
    var input := InputOf(world, scene, call);
    LoadsFit(world.cfg, scene.state, total, t);
    StepSendsElsewhere(world.cfg, scene.state, input, t);
    if 0 <= scene.state.rows[t].goal {
      AwayShrinksSlowly(world.root, scene.places[t], Place(world, scene, call, t), Pace(world.stepSize, scene.state.rows[t].capacity), scene.state.rows[t].goal);
      StepMovesGoal(world.cfg, scene.state, input, total, t);
    }
    assert ShapedRow(Step(world.cfg, scene.state, input).rows[t]);
  }

  lemma AddedUpSums(a: seq<int>, b: seq<int>)
    requires |a| == |b|
    ensures |AddedUp(a, b)| == |a|
    ensures Sum(AddedUp(a, b)) == Sum(a) + Sum(b)
  {
    SumPointwise(a, b, AddedUp(a, b));
  }

  lemma OpeningOnTime(world: World, scene: Scene, units: seq<int>, total: int)
    requires ValidWorld(world) && ValidScene(world, scene) && Invariant(world.cfg, scene.state, total)
    requires scene.state.delivered == 0 && |units| == world.cfg.numTargets
    requires forall t :: 0 <= t < |units| ==> units[t] == 0
    ensures AllOnTime(world, scene, units, 0)
  {
    hide Invariant, IsRoot, OnTime, Way;
    SumOfZeros(units);
    NoWay(world.stepSize);
    forall t | 0 <= t < world.cfg.numTargets
      ensures TargetOnTime(world, scene, units, 0, t)
    {
      LoadsFit(world.cfg, scene.state, total, t);
      assert ShapedRow(scene.state.rows[t]);
      OnTimeAtFirst(scene.state.rows[t].capacity, scene.state.rows[t].goal, scene.places[t]);
    }
  }

  lemma NoWay(stepSize: real)
    ensures Way(0, stepSize) == 0.0
  {
  }

  lemma CallOnTime(world: World, scene: Scene, call: Call, units: seq<int>, n: nat, total: int)
    requires ValidWorld(world) && ValidScene(world, scene) && ValidCall(world, call)
    requires Invariant(world.cfg, scene.state, total) && AllOnTime(world, scene, units, n)
    ensures AllOnTime(world, Next(world, scene, call), AddedUp(units, HandedAll(scene.state.rows, InputOf(world, scene, call).inside)), n + 1)
  {
    hide Invariant, IsRoot, Step, InputOf, TargetOnTime, AddedUp, Places;
    var input, next := InputOf(world, scene, call), Next(world, scene, call);
    var handed := HandedAll(scene.state.rows, input.inside);
    StepPays(world.cfg, scene.state, input, total);
    AddedUpSums(units, handed);
    var sums, m := AddedUp(units, handed), n + 1;
    forall t | 0 <= t < world.cfg.numTargets
      ensures TargetOnTime(world, next, sums, m, t)
    {
      TargetStaysOnTime(world, scene, call, units, n, t, total);
    }
  }

  lemma {:induction false} EpisodeOnTime(world: World, reset: ResetInput, places: seq<Vec>, calls: seq<Call>)
    requires ValidOpening(world, reset, places) && ValidCalls(world, calls)
    ensures var start := Opening(world, reset, places);
      AllOnTime(world, Play(world, start, calls), Units(world, start, calls), |calls|)
  {
    hide Invariant, ValidReset, IsRoot, AllOnTime, InputOf, HandedAll, AddedUp, Initial, Next;
    var start, total := Opening(world, reset, places), InitialCargo(world.cfg, reset);
    if calls == [] {
      ResetIsSound(world.cfg, reset);
      OpeningOnTime(world, start, Units(world, start, calls), total);
    } else {
      var n := |calls| - 1;
      assert ValidCall(world, calls[n]);
      EpisodeOnTime(world, reset, places, calls[..n]);
      CargoIsSound(world, reset, places, calls[..n]);
      CallOnTime(world, Play(world, start, calls[..n]), calls[n], Units(world, start, calls[..n]), n, total);
    }
  }

  lemma {:induction false} SumAtMost(s: seq<int>, bound: real)
    requires forall i :: 0 <= i < |s| ==> s[i] as real <= bound
    ensures Sum(s) as real <= |s| as real * bound
  {
    if s != [] {
      SumAtMost(s[1..], bound);
    }
  }

  /** Throughput is limited: in n calls each target delivers at most one full load of two
      units, and one unit for each gap between warehouses that its step size, taken n times,
      would cover. */
  lemma ThroughputIsLimited(world: World, reset: ResetInput, places: seq<Vec>, calls: seq<Call>)
    requires ValidOpening(world, reset, places) && ValidCalls(world, calls)
    ensures WAREHOUSE_GAP * Cargo(world, reset, places, calls).delivered as real
      <= world.cfg.numTargets as real * (2.0 * WAREHOUSE_GAP + Way(|calls|, world.stepSize))
  {
    hide Play, Opening, Units, ValidWorld, Episode, Way;
    var start := Opening(world, reset, places);
    var units, way := Units(world, start, calls), Way(|calls|, world.stepSize);
    EpisodeOnTime(world, reset, places, calls);
    forall t | 0 <= t < world.cfg.numTargets
      ensures units[t] as real <= 2.0 + way / WAREHOUSE_GAP
    {
      assert TargetOnTime(world, Play(world, start, calls), units, |calls|, t);
    }
    SumAtMost(units, 2.0 + way / WAREHOUSE_GAP);
    Scale(world.cfg.numTargets as real, way);
  }

  lemma Scale(n: real, way: real)
    ensures WAREHOUSE_GAP * (n * (2.0 + way / WAREHOUSE_GAP)) == n * (2.0 * WAREHOUSE_GAP + way)
  {
    assert WAREHOUSE_GAP * (2.0 + way / WAREHOUSE_GAP) == 2.0 * WAREHOUSE_GAP + way;
  }
}
