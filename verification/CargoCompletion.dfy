/** Every episode can be completed in time: wherever the obstacles lie, if the warehouses
    can be found, the targets have a strategy that delivers everything, whatever the cameras
    see and whatever is drawn. */
module CargoCompletion {
  import opened Sums
  import opened Vectors
  import opened Obstruction
  import opened TargetMotion
  import opened Terrain
  import opened CargoEconomy
  import opened CargoInvariants
  import opened CargoReset
  import opened CargoSteps
  import opened CargoRuns
  import opened CargoJourneys
  import opened Reals
  import T = CargoThroughput
  import C = CameraRays

  // ------------------------------------------------------------------- the work left

  function Goals(s: State): seq<int> {
    seq(|s.rows|, t requires 0 <= t < |s.rows| => s.rows[t].goal)
  }

  function Idle(goals: seq<int>): seq<int> {
    seq(|goals|, t requires 0 <= t < |goals| => if goals[t] < 0 then 1 else 0)
  }

  /** Two for each unit not yet delivered, one for each target that has to load. */
  function Work(s: State): int {
    2 * Sum(s.awaiting) + Sum(Idle(Goals(s)))
  }

  /** Nothing has been loaded or delivered. */
  predicate Quiet(s: State, s': State) {
    Goals(s') == Goals(s) && s'.remaining == s.remaining && s'.awaiting == s.awaiting
  }

  /** What serving one target does to the cargo. */
  lemma ServeEffect(cfg: Config, o: Outcome, t: nat, inside: seq<bool>, draw: (nat, nat) -> nat)
    requires Shaped(cfg, o.state) && t < cfg.numTargets && |inside| == NUM_WAREHOUSES
    ensures var s, s' := o.state, Serve(cfg, o, t, inside, draw).state;
      var r := s.rows[t];
      && (AtGoal(r, inside) ==> s'.awaiting == s.awaiting[r.goal := s.awaiting[r.goal] - Weight(r)])
      && (!AtGoal(r, inside) ==> s'.awaiting == s.awaiting && (s'.rows[t].goal == r.goal ==> s'.remaining == s.remaining))
      && (!AtGoal(r, inside) && 0 <= r.goal ==> s'.rows[t].goal == r.goal)
      && -1 <= s'.rows[t].goal
  {
  }

  lemma ServeGoals(cfg: Config, o: Outcome, t: nat, inside: seq<bool>, draw: (nat, nat) -> nat)
    requires Shaped(cfg, o.state) && t < cfg.numTargets && |inside| == NUM_WAREHOUSES
    ensures var s, s' := o.state, Serve(cfg, o, t, inside, draw).state;
      Goals(s') == Goals(s)[t := s'.rows[t].goal]
  {
    hide Serve;
    forall i | 0 <= i < cfg.numTargets && i != t
      ensures Serve(cfg, o, t, inside, draw).state.rows[i] == o.state.rows[i]
    {
      ServeOthers(cfg, o, t, inside, draw, i);
    }
  }

  /** A turn either changes nothing or leaves less work. */
  lemma ServeWorks(cfg: Config, o: Outcome, t: nat, inside: seq<bool>, draw: (nat, nat) -> nat)
    requires Shaped(cfg, o.state) && t < cfg.numTargets && |inside| == NUM_WAREHOUSES
    requires Agree(cfg, o.state.rows[t])
    ensures var s, s' := o.state, Serve(cfg, o, t, inside, draw).state;
      Quiet(s, s') || Work(s') < Work(s)
  {
    var s, s' := o.state, Serve(cfg, o, t, inside, draw).state;
    var r := s.rows[t];
    ServeEffect(cfg, o, t, inside, draw);
    ServeGoals(cfg, o, t, inside, draw);
    hide Serve;
    var g' := s'.rows[t].goal;
    IdleUpdate(Goals(s), t, g');
    if AtGoal(r, inside) {
      SumUpdate(s.awaiting, r.goal, s.awaiting[r.goal] - Weight(r));
    } else if g' == r.goal {
      assert Goals(s)[t := g'] == Goals(s);
    }
  }

  lemma IdleUpdate(goals: seq<int>, t: nat, goal: int)
    requires t < |goals|
    ensures Sum(Idle(goals[t := goal])) == Sum(Idle(goals)) - (if goals[t] < 0 then 1 else 0) + (if goal < 0 then 1 else 0)
  {
    var flag := if goal < 0 then 1 else 0;
    assert Idle(goals[t := goal]) == Idle(goals)[t := flag];
    SumUpdate(Idle(goals), t, flag);
  }

  lemma {:induction false} ServeFirstWorks(cfg: Config, o: Outcome, n: nat, input: Input)
    requires Shaped(cfg, o.state) && n <= cfg.numTargets && ShapedInput(cfg, input)
    requires forall t :: 0 <= t < cfg.numTargets ==> Agree(cfg, o.state.rows[t])
    ensures var s, s' := o.state, ServeFirst(cfg, o, n, input).state;
      Quiet(s, s') || Work(s') < Work(s)
  {
    hide Serve, Agree, Goals;
    if n > 0 {
      var before := ServeFirst(cfg, o, n - 1, input);
      ServeFirstWorks(cfg, o, n - 1, input);
      ServeFirstFrame(cfg, o, n - 1, input);
      ServeWorks(cfg, before, n - 1, input.inside[n - 1], input.draw);
    }
  }

  /** A step either changes nothing or leaves less work. */
  lemma StepWorks(cfg: Config, s: State, input: Input, total: int)
    requires ValidConfig(cfg) && Invariant(cfg, s, total) && ShapedInput(cfg, input)
    ensures var s' := Step(cfg, s, input);
      Quiet(s, s') || Work(s') < Work(s)
  {
    hide ServeFirst;
    DecayKeepsRows(cfg, s, input.tracked, total);
    var start := Opened(s, input.tracked);
    ServeFirstWorks(cfg, start, cfg.numTargets, input);
    var served, s' := ServeFirst(cfg, start, cfg.numTargets, input).state, Step(cfg, s, input);
    assert Goals(start.state) == Goals(s);
    assert Goals(s') == Goals(served);
  }

  lemma WorkIsLeft(cfg: Config, s: State, total: int)
    requires ValidConfig(cfg) && Invariant(cfg, s, total)
    ensures 0 <= Work(s)
    ensures !NothingAwaited(s) ==> 2 <= Work(s)
    ensures Work(s) <= 2 * Sum(s.awaiting) + cfg.numTargets
  {
    forall w | 0 <= w < NUM_WAREHOUSES
      ensures 0 <= s.awaiting[w]
    {
      AwaitingIsNatural(cfg, s, total, w);
    }
    SumNonNegative(s.awaiting);
    SumBounds(Idle(Goals(s)), 0, 1);
    if !NothingAwaited(s) {
      var w :| 0 <= w < |s.awaiting| && s.awaiting[w] != 0;
      SumAtLeast(s.awaiting, w);
    }
  }

  // ------------------------------------------------------------- finding the warehouses

  /** A way of finding warehouses: where it works, the action at a place for a target of some
      capacity, and a bound on the calls left, never more than the delay. */
  datatype Guide = Guide(free: Vec -> bool, steer: (Vec, nat, nat) -> Vec, far: (Vec, nat, nat) -> nat, delay: nat)

  predicate ValidOrder(world: World, order: seq<Circle>) {
    multiset(order) == world.obstacles && forall c :: c in order ==> 0.0 <= c.radius
  }

  /** The guide leads on from one place: the warehouse is reached or gets nearer. */
  ghost predicate LeadsFrom(world: World, guide: Guide, p: Vec, capacity: nat, v: nat, order: seq<Circle>)
    requires ValidWorld(world) && ValidOrder(world, order)
  {
    PaceIsPositive(world.stepSize, capacity);
    var q := Moved(world.root, p, guide.steer(p, capacity, v), Pace(world.stepSize, capacity), order);
    guide.free(q) && (StandsIn(q, v) || guide.far(q, capacity, v) < guide.far(p, capacity, v))
  }

  /** The guide leads from every place to every warehouse, in whatever order the obstacles
      are met. */
  ghost predicate Leads(world: World, guide: Guide)
    requires ValidWorld(world)
  {
    && (forall p, capacity: nat, v: nat :: guide.free(p) && 1 <= capacity <= 2 && v < NUM_WAREHOUSES ==> guide.far(p, capacity, v) <= guide.delay)
    && forall p, capacity: nat, v: nat, order :: guide.free(p) && 1 <= capacity <= 2 && v < NUM_WAREHOUSES && ValidOrder(world, order) ==> LeadsFrom(world, guide, p, capacity, v, order)
  }

  lemma NoLimit(root: Root, v: Vec, pace: real)
    requires IsRoot(root) && 0.0 < pace && Norm(root, v) <= pace
    ensures Limited(root, v, pace) == v
  {
  }

  lemma FoldOfZero(root: Root, p: Vec, order: seq<Circle>)
    requires IsRoot(root) && forall c :: c in order ==> 0.0 <= c.radius
    ensures Norm(root, ZERO) == 0.0
    ensures C.Fold(root, order, p, ZERO, true, false) == ZERO
  {
    hide IsRoot, Norm, C.Fold, Mul, Vec.Square;
    NormFacts(root, ZERO);
    FoldNeverLonger(root, order, p, ZERO);
    NormFacts(root, C.Fold(root, order, p, ZERO, true, false));
  }

  /** A target that asks for no movement stays where it is. */
  lemma StandsStill(root: Root, p: Vec, pace: real, order: seq<Circle>)
    requires IsRoot(root) && InTerrain(p) && 0.0 < pace && forall c :: c in order ==> 0.0 <= c.radius
    ensures Moved(root, p, ZERO, pace, order) == p
  {
    hide IsRoot, Norm, C.Fold, Limited;
    FoldOfZero(root, p, order);
    NoLimit(root, ZERO, pace);
    assert p.Plus(ZERO) == p && Clip(p) == p;
  }

  // ------------------------------------------------------------------------- errands

  /** The first loaded target, the number of targets if there is none. */
  function FirstLoaded(goals: seq<int>): (t: nat)
    ensures t <= |goals| && (t < |goals| ==> 0 <= goals[t])
    ensures t == |goals| ==> forall i :: 0 <= i < |goals| ==> goals[i] < 0
  {
    if goals == [] || 0 <= goals[0] then 0 else 1 + FirstLoaded(goals[1..])
  }

  function AllWarehouses(): seq<nat> { [0, 1, 2, 3] }

  /** Who runs the next errand, and where to: a loaded target to its goal; when nobody is
      loaded, the first target to the first stocked warehouse. */
  function Runner(goals: seq<int>): nat {
    if FirstLoaded(goals) < |goals| then FirstLoaded(goals) else 0
  }

  function Destination(s: State): nat
    requires ShapedStock(s.remaining)
  {
    var goals := Goals(s);
    if FirstLoaded(goals) < |goals| then goals[FirstLoaded(goals)] else FirstStocked(AllWarehouses(), s.remaining)
  }

  /** Only the runner moves. */
  function Errand(guide: Guide, scene: Scene): (actions: seq<Vec>)
    requires ShapedStock(scene.state.remaining) && |scene.places| == |scene.state.rows|
    ensures |actions| == |scene.places|
  {
    var runner, to := Runner(Goals(scene.state)), Destination(scene.state);
    seq(|scene.places|, t requires 0 <= t < |scene.places| =>
      if t == runner then guide.steer(scene.places[t], scene.state.rows[t].capacity, to) else ZERO)
  }

  lemma DestinationExists(cfg: Config, s: State, total: int)
    requires ValidConfig(cfg) && Invariant(cfg, s, total) && !NothingAwaited(s)
    ensures Destination(s) < NUM_WAREHOUSES
    ensures FirstLoaded(Goals(s)) == |Goals(s)| ==> Stocked(s.remaining[Destination(s)])
  {
    AwaitingIsExact(cfg, s, total);
    assert Shaped(cfg, s);
    hide Invariant, NothingAwaited;
    var t := FirstLoaded(Goals(s));
    if t < cfg.numTargets {
      assert ShapedRow(s.rows[t]);
    } else {
      forall i | 0 <= i < cfg.numTargets
        ensures s.rows[i].goal == -1
      {
        assert ShapedRow(s.rows[i]) && Goals(s)[i] < 0;
      }
      var w :| 0 <= w < NUM_WAREHOUSES && Stocked(s.remaining[w]);
      assert AllWarehouses()[w] == w;
    }
  }

  lemma {:induction false} FirstRowStays(cfg: Config, o: Outcome, n: nat, input: Input)
    requires Shaped(cfg, o.state) && 1 <= n <= cfg.numTargets && ShapedInput(cfg, input)
    ensures ServeFirst(cfg, o, n, input).state.rows[0] == Serve(cfg, o, 0, input.inside[0], input.draw).state.rows[0]
  {
    hide Serve;
    if n == 1 {
      assert ServeFirst(cfg, o, 0, input) == o;
    } else {
      FirstRowStays(cfg, o, n - 1, input);
      ServeOthers(cfg, ServeFirst(cfg, o, n - 1, input), n - 1, input.inside[n - 1], input.draw, 0);
    }
  }

  /** An unloaded target that stands in a stocked warehouse gets a load. */
  lemma ServeLoads(cfg: Config, o: Outcome, inside: seq<bool>, draw: (nat, nat) -> nat, v: nat)
    requires Shaped(cfg, o.state) && 0 < cfg.numTargets && o.state.rows[0].goal == -1
    requires |inside| == NUM_WAREHOUSES && v < NUM_WAREHOUSES && inside[v] && Stocked(o.state.remaining[v])
    ensures 0 <= Serve(cfg, o, 0, inside, draw).state.rows[0].goal
  {
    assert v in FlatNonzero(inside);
  }

  lemma StepLoads(cfg: Config, s: State, input: Input, v: nat)
    requires Shaped(cfg, s) && ShapedInput(cfg, input) && 0 < cfg.numTargets && s.rows[0].goal == -1
    requires v < NUM_WAREHOUSES && input.inside[0][v] && Stocked(s.remaining[v])
    ensures 0 <= Step(cfg, s, input).rows[0].goal
  {
    hide ServeFirst, Serve;
    var start := Opened(s, input.tracked);
    ServeLoads(cfg, start, input.inside[0], input.draw, v);
    FirstRowStays(cfg, start, cfg.numTargets, input);
  }

  /** An errand ends with a delivery or a load. */
  lemma ArrivalHelps(cfg: Config, s: State, input: Input, total: int)
    requires ValidConfig(cfg) && Invariant(cfg, s, total) && ShapedInput(cfg, input) && !NothingAwaited(s)
    requires Destination(s) < NUM_WAREHOUSES && input.inside[Runner(Goals(s))][Destination(s)]
    ensures Work(Step(cfg, s, input)) < Work(s)
  {
    assert Shaped(cfg, s);
    hide Step, Invariant, Work, NothingAwaited;
    var s', t := Step(cfg, s, input), Runner(Goals(s));
    StepWorks(cfg, s, input, total);
    DestinationExists(cfg, s, total);
    if FirstLoaded(Goals(s)) < cfg.numTargets {
      T.StepMovesGoal(cfg, s, input, total, t);
    } else {
      assert ShapedRow(s.rows[0]) && Goals(s)[0] < 0;
      StepLoads(cfg, s, input, Destination(s));
    }
    assert Goals(s')[t] != Goals(s)[t];
  }

  // ---------------------------------------------------------------------- the strategy

  ghost predicate AllFree(guide: Guide, scene: Scene) {
    forall t :: 0 <= t < |scene.places| ==> guide.free(scene.places[t])
  }

  /** How many calls at most until everything has been delivered. */
  function CallsLeft(guide: Guide, scene: Scene): int
    requires ShapedStock(scene.state.remaining) && 0 < |scene.places| == |scene.state.rows|
  {
    if NothingAwaited(scene.state) then 0
    else
      var t := Runner(Goals(scene.state));
      Times(guide.delay + 1, Work(scene.state) - 1) + guide.far(scene.places[t], scene.state.rows[t].capacity, Destination(scene.state)) + 1
  }

  function Times(a: int, b: int): int { a * b }

  lemma TimesOrder(a: nat, b: int, c: int)
    requires b <= c
    ensures Times(a, b) <= Times(a, c) && Times(a, c - 1) == Times(a, c) - a
    ensures 0 <= b ==> 0 <= Times(a, b)
  {
  }

  /** Where the targets are after an errand call: the runner was led on, the others stayed. */
  lemma ErrandMoves(world: World, guide: Guide, scene: Scene, call: Call, t: nat)
    requires ValidWorld(world) && ValidScene(world, scene) && ValidCall(world, call) && Leads(world, guide)
    requires call.actions == Errand(guide, scene) && AllFree(guide, scene) && t < world.cfg.numTargets
    requires Destination(scene.state) < NUM_WAREHOUSES && 1 <= scene.state.rows[t].capacity <= 2
    ensures var p, q, capacity, v := scene.places[t], Places(world, scene, call)[t], scene.state.rows[t].capacity, Destination(scene.state);
      && guide.free(q)
      && (t == Runner(Goals(scene.state)) ==> StandsIn(q, v) || guide.far(q, capacity, v) < guide.far(p, capacity, v))
  {
    hide IsRoot, Moved, Away, Destination, Goals;
    var p, capacity, v := scene.places[t], scene.state.rows[t].capacity, Destination(scene.state);
    var order := call.chance.orders[t];
    PaceIsPositive(world.stepSize, capacity);
    assert ValidOrder(world, order) by {
      assert forall c :: c in order ==> c in multiset(order);
    }
    if t == Runner(Goals(scene.state)) {
      assert LeadsFrom(world, guide, p, capacity, v, order);
    } else {
      StandsStill(world.root, p, Pace(world.stepSize, capacity), order);
    }
  }

  lemma QuietMeansSame(s: State, s': State)
    requires ShapedStock(s.remaining) && Quiet(s, s')
    ensures ShapedStock(s'.remaining)
    ensures Work(s') == Work(s) && Runner(Goals(s')) == Runner(Goals(s)) && Destination(s') == Destination(s)
    ensures NothingAwaited(s') <==> NothingAwaited(s)
  {
  }

  lemma RunnerExists(goals: seq<int>)
    requires goals != []
    ensures Runner(goals) < |goals|
  {
  }

  /** A new errand takes at most the delay. */
  lemma NextErrand(world: World, guide: Guide, scene: Scene, total: int)
    requires ValidWorld(world) && ValidScene(world, scene) && Leads(world, guide) && AllFree(guide, scene)
    requires Invariant(world.cfg, scene.state, total)
    ensures CallsLeft(guide, scene) <= Times(guide.delay + 1, Work(scene.state))
  {
    hide Invariant, Work, NothingAwaited, Destination, Runner, Times, LeadsFrom;
    var cfg, s, t := world.cfg, scene.state, Runner(Goals(scene.state));
    WorkIsLeft(cfg, s, total);
    TimesOrder(guide.delay + 1, 0, Work(s));
    if !NothingAwaited(s) {
      DestinationExists(cfg, s, total);
      RunnerExists(Goals(s));
      T.LoadsFit(cfg, s, total, t);
      assert guide.far(scene.places[t], s.rows[t].capacity, Destination(s)) <= guide.delay;
    }
  }

  /** After an errand call all places are free; if it changed nothing, the runner, unless
      arrived, is nearer. */
  lemma ErrandLeads(world: World, guide: Guide, scene: Scene, call: Call, total: int)
    requires ValidWorld(world) && ValidScene(world, scene) && ValidCall(world, call) && Leads(world, guide)
    requires Invariant(world.cfg, scene.state, total)
    requires call.actions == Errand(guide, scene) && AllFree(guide, scene) && Destination(scene.state) < NUM_WAREHOUSES
    ensures AllFree(guide, Next(world, scene, call))
    ensures var next, t, v := Next(world, scene, call), Runner(Goals(scene.state)), Destination(scene.state);
      && t < world.cfg.numTargets
      && (StandsIn(next.places[t], v) || guide.far(next.places[t], scene.state.rows[t].capacity, v) < guide.far(scene.places[t], scene.state.rows[t].capacity, v))
  {
    hide ValidWorld, Step, Invariant, Destination, Runner, Leads, Errand, InputOf, Place, Away;
    var next := Next(world, scene, call);
    forall i | 0 <= i < world.cfg.numTargets
      ensures guide.free(next.places[i])
    {
      T.LoadsFit(world.cfg, scene.state, total, i);
      ErrandMoves(world, guide, scene, call, i);
    }
    ValidWorldHasTargets(world);
    RunnerExists(Goals(scene.state));
    T.LoadsFit(world.cfg, scene.state, total, Runner(Goals(scene.state)));
    ErrandMoves(world, guide, scene, call, Runner(Goals(scene.state)));
  }

  lemma ValidWorldHasTargets(world: World)
    requires ValidWorld(world)
    ensures ValidConfig(world.cfg) && 0 < world.cfg.numTargets
  {
  }

  /** An errand call that changes nothing did not arrive. */
  lemma QuietIsUnderWay(world: World, scene: Scene, call: Call, total: int)
    requires ValidWorld(world) && ValidScene(world, scene) && ValidCall(world, call)
    requires Invariant(world.cfg, scene.state, total) && !NothingAwaited(scene.state)
    requires Quiet(scene.state, Next(world, scene, call).state)
    ensures Runner(Goals(scene.state)) < world.cfg.numTargets && Destination(scene.state) < NUM_WAREHOUSES
    ensures !StandsIn(Next(world, scene, call).places[Runner(Goals(scene.state))], Destination(scene.state))
  {
    hide ValidWorld, Step, Invariant, Work, NothingAwaited, Destination, Runner, Quiet, Places, Away;
    var s, next := scene.state, Next(world, scene, call);
    ValidWorldHasTargets(world);
    RunnerExists(Goals(s));
    DestinationExists(world.cfg, s, total);
    QuietMeansSame(s, next.state);
    assert InputOf(world, scene, call).inside == AllInside(next.places);
    if StandsIn(next.places[Runner(Goals(s))], Destination(s)) {
      ArrivalHelps(world.cfg, s, InputOf(world, scene, call), total);
      assert false;
    }
  }

  /** Every errand call brings the end nearer. */
  lemma ErrandHelps(world: World, guide: Guide, scene: Scene, call: Call, total: int)
    requires ValidWorld(world) && ValidScene(world, scene) && ValidCall(world, call) && Leads(world, guide)
    requires Invariant(world.cfg, scene.state, total) && !NothingAwaited(scene.state)
    requires call.actions == Errand(guide, scene) && AllFree(guide, scene)
    ensures var next := Next(world, scene, call);
      AllFree(guide, next) && CallsLeft(guide, next) < CallsLeft(guide, scene)
  {
    hide ValidWorld, Step, Invariant, Work, NothingAwaited, Destination, Runner, Goals, Leads, Errand, InputOf, Times, Quiet, Places, Away, AllFree;
    var cfg, s, next, input := world.cfg, scene.state, Next(world, scene, call), InputOf(world, scene, call);
    ValidWorldHasTargets(world);
    DestinationExists(cfg, s, total);
    ErrandLeads(world, guide, scene, call, total);
    StepWorks(cfg, s, input, total);
    StepKeeps(cfg, s, input, total);
    WorkIsLeft(cfg, s, total);
    TimesOrder(guide.delay + 1, 0, Work(s) - 1);
    if Quiet(s, next.state) {
      QuietMeansSame(s, next.state);
      QuietIsUnderWay(world, scene, call, total);
      StepKeepsCapacity(cfg, s, input, Runner(Goals(s)));
    } else {
      NextErrand(world, guide, next, total);
      TimesOrder(guide.delay + 1, Work(next.state), Work(s) - 1);
    }
  }

  // ------------------------------------------------------------------------- pursuit

  /** At most n more calls, each an errand, until everything has been delivered. */
  ghost function Pursuit(world: World, guide: Guide, start: Scene, calls: seq<Call>, chances: nat -> Chance, n: nat): (all: seq<Call>)
    requires ValidWorld(world) && ValidScene(world, start) && ValidCalls(world, calls) && 0 < world.cfg.numTargets
    requires forall k: nat :: ValidChance(world, chances(k))
    ensures ValidCalls(world, all)
    decreases n
  {
    hide Play, Errand, IsRoot, NothingAwaited, ValidChance;
    var scene := Play(world, start, calls);
    if n == 0 || NothingAwaited(scene.state) then calls
    else Pursuit(world, guide, start, calls + [Call(Errand(guide, scene), chances(|calls|))], chances, n - 1)
  }

  lemma OneMoreCall(world: World, reset: ResetInput, places: seq<Vec>, calls: seq<Call>, call: Call)
    requires Episode(world, reset, places, calls) && ValidCall(world, call)
    requires !NothingAwaited(Cargo(world, reset, places, calls)) && |calls| <= world.cfg.maxSteps
    ensures Episode(world, reset, places, calls + [call])
    ensures Play(world, Opening(world, reset, places), calls + [call]) == Next(world, Play(world, Opening(world, reset, places), calls), call)
  {
    hide Invariant, Play, Opening, ValidReset, IsRoot, Next;
    var start, more := Opening(world, reset, places), calls + [call];
    CargoIsSound(world, reset, places, calls);
    PlayOneMore(world, start, calls, call);
    forall k | 0 <= k < |more|
      ensures Going(world, start, more, k)
    {
      assert more[..k] == calls[..k];
      if k < |calls| {
        assert Going(world, start, calls, k);
      } else {
        assert calls[..k] == calls;
      }
    }
  }

  lemma PlayOneMore(world: World, start: Scene, calls: seq<Call>, call: Call)
    requires ValidWorld(world) && ValidScene(world, start) && ValidCalls(world, calls) && ValidCall(world, call)
    ensures ValidCalls(world, calls + [call])
    ensures Play(world, start, calls + [call]) == Next(world, Play(world, start, calls), call)
  {
    assert (calls + [call])[..|calls|] == calls;
  }

  lemma {:induction false} PursuitCompletes(world: World, guide: Guide, reset: ResetInput, places: seq<Vec>, calls: seq<Call>, chances: nat -> Chance, n: nat)
    requires Episode(world, reset, places, calls) && Leads(world, guide)
    requires forall k: nat :: ValidChance(world, chances(k))
    requires var scene := Play(world, Opening(world, reset, places), calls);
      AllFree(guide, scene) && CallsLeft(guide, scene) <= n
    requires |calls| + n <= world.cfg.maxSteps + 1
    ensures var all := Pursuit(world, guide, Opening(world, reset, places), calls, chances, n);
      Episode(world, reset, places, all) && NothingAwaited(Cargo(world, reset, places, all))
    decreases n
  {
    hide Invariant, Play, Opening, ValidReset, Leads, NothingAwaited, CallsLeft, Next, Going, IsRoot, AllFree, Errand, InitialCargo;
    var start := Opening(world, reset, places);
    var scene := Play(world, start, calls);
    CargoIsSound(world, reset, places, calls);
    CallsAreLeft(world, guide, scene, InitialCargo(world.cfg, reset));
    if !NothingAwaited(scene.state) {
      var call := Call(Errand(guide, scene), chances(|calls|));
      ErrandHelps(world, guide, scene, call, InitialCargo(world.cfg, reset));
      OneMoreCall(world, reset, places, calls, call);
      PursuitCompletes(world, guide, reset, places, calls + [call], chances, n - 1);
    }
  }

  lemma CallsAreLeft(world: World, guide: Guide, scene: Scene, total: int)
    requires ValidWorld(world) && ValidScene(world, scene) && Invariant(world.cfg, scene.state, total)
    ensures !NothingAwaited(scene.state) ==> 1 <= CallsLeft(guide, scene)
  {
    hide Invariant, NothingAwaited, Work, Times, IsRoot, Runner, Destination;
    WorkIsLeft(world.cfg, scene.state, total);
    RunnerExists(Goals(scene.state));
    if !NothingAwaited(scene.state) {
      TimesOrder(guide.delay + 1, 0, Work(scene.state) - 1);
    }
  }

  /** From any point of any episode the targets can deliver all remaining cargo, if the
      warehouses can be found and enough calls are left: two errands for each unit, and one
      for each idle target.  The episode is not over before, and neither the cameras nor the
      random numbers nor the order of the obstacles can prevent it. */
  lemma CanBeCompleted(world: World, guide: Guide, reset: ResetInput, places: seq<Vec>, calls: seq<Call>, chances: nat -> Chance)
    returns (all: seq<Call>)
    requires Episode(world, reset, places, calls) && Leads(world, guide)
    requires AllFree(guide, Play(world, Opening(world, reset, places), calls))
    requires forall k: nat :: ValidChance(world, chances(k))
    requires |calls| + Times(guide.delay + 1, Work(Cargo(world, reset, places, calls))) <= world.cfg.maxSteps + 1
    ensures Episode(world, reset, places, all) && calls <= all
    ensures forall k :: |calls| <= k < |all| ==> all[k].chance == chances(k)
    ensures Cargo(world, reset, places, all).delivered == InitialCargo(world.cfg, reset)
  {
    hide Invariant, Play, Opening, ValidReset, Leads, NothingAwaited, CallsLeft, Next, Going, IsRoot, AllFree, Work, Times;
    var start, total := Opening(world, reset, places), InitialCargo(world.cfg, reset);
    var scene := Play(world, start, calls);
    CargoIsSound(world, reset, places, calls);
    NextErrand(world, guide, scene, total);
    WorkIsLeft(world.cfg, scene.state, total);
    TimesOrder(guide.delay + 1, 0, Work(scene.state));
    var n := Times(guide.delay + 1, Work(scene.state));
    all := Pursuit(world, guide, start, calls, chances, n);
    PursuitCompletes(world, guide, reset, places, calls, chances, n);
    PursuitChances(world, guide, start, calls, chances, n);
    CargoIsSound(world, reset, places, all);
    AwaitingIsExact(world.cfg, Cargo(world, reset, places, all), total);
  }

  lemma {:induction false} PursuitChances(world: World, guide: Guide, start: Scene, calls: seq<Call>, chances: nat -> Chance, n: nat)
    requires ValidWorld(world) && ValidScene(world, start) && ValidCalls(world, calls)
    requires forall k: nat :: ValidChance(world, chances(k))
    ensures var all := Pursuit(world, guide, start, calls, chances, n);
      calls <= all && forall k :: |calls| <= k < |all| ==> all[k].chance == chances(k)
    decreases n
  {
    hide Play, IsRoot, Errand, NothingAwaited;
    var scene := Play(world, start, calls);
    if n != 0 && !NothingAwaited(scene.state) {
      var call := Call(Errand(guide, scene), chances(|calls|));
      PursuitChances(world, guide, start, calls + [call], chances, n - 1);
    }
  }

  // --------------------------------------------------------------------- open terrain

  function OpenFar(stepSize: real, p: Vec, capacity: nat, v: nat): nat {
    if 0.0 < Pace(stepSize, capacity) then Far(p, Center(v), Pace(stepSize, capacity)) else 0
  }

  /** Without obstacles a target goes straight along one axis, then along the other. */
  function OpenGuide(world: World): Guide {
    Guide(p => InTerrain(p),
          (p: Vec, capacity: nat, v: nat) => Steer(p, Center(v), Pace(world.stepSize, capacity)),
          (p: Vec, capacity: nat, v: nat) => OpenFar(world.stepSize, p, capacity, v),
          if world.cfg.freightScale < 0 then 0 else 4 * world.cfg.freightScale)
  }

  lemma OpenMove(root: Root, p: Vec, v: nat, pace: real)
    requires IsRoot(root) && InTerrain(p) && 0.0 < pace
    ensures var q := Moved(root, p, Steer(p, Center(v), pace), pace, []);
      InTerrain(q) && (StandsIn(q, v) || Far(q, Center(v), pace) < Far(p, Center(v), pace))
  {
    hide IsRoot, Norm, Steer, Far, Limited;
    SteerIsShort(root, p, Center(v), pace);
    NoLimit(root, Steer(p, Center(v), pace), pace);
    SteerStaysInside(p, Center(v), pace);
    SteerHelps(p, Center(v), pace);
  }

  /** In an open terrain every warehouse can be found within the delay of four times the
      freight for crossing it. */
  lemma OpenTerrainLeads(world: World)
    requires ValidWorld(world) && world.obstacles == multiset{}
    ensures Leads(world, OpenGuide(world))
  {
    hide IsRoot, Moved, Steer, Far, Away;
    var guide := OpenGuide(world);
    forall p, capacity: nat, v: nat | guide.free(p) && 1 <= capacity <= 2 && v < NUM_WAREHOUSES
      ensures guide.far(p, capacity, v) <= guide.delay
    {
      PaceIsPositive(world.stepSize, capacity);
      FarIsBounded(p, v, world.stepSize, capacity);
    }
    forall p, capacity: nat, v: nat, order | guide.free(p) && 1 <= capacity <= 2 && v < NUM_WAREHOUSES && ValidOrder(world, order)
      ensures LeadsFrom(world, guide, p, capacity, v, order)
    {
      assert |order| == |multiset(order)| == 0;
      PaceIsPositive(world.stepSize, capacity);
      OpenMove(world.root, p, v, Pace(world.stepSize, capacity));
    }
  }
}
