/** Episodes with real movement: where the targets are, how far they get in a call, in
    which warehouses they stand, and when an episode is over. */
module CargoJourneys {
  import opened Reals
  import opened Vectors
  import opened Obstruction
  import opened TargetMotion
  import opened Terrain
  import opened CargoEconomy
  import opened CargoInvariants
  import opened CargoReset
  import opened CargoRuns
  import G = CircleGeometry
  import C = CargoCalls

  /** An environment with its obstacles; cameras are obstacles, too. */
  datatype World = World(cfg: Config, root: Root, stepSize: real, obstacles: multiset<Circle>, cameras: nat)

  ghost predicate ValidWorld(world: World) {
    && ValidConfig(world.cfg) && IsRoot(world.root) && 0.0 < world.stepSize
    && world.cfg.freightScale == FreightScale(world.stepSize)
    && forall c :: c in world.obstacles ==> 0.0 <= c.radius
  }

  /** Where the targets are, and the cargo. */
  datatype Scene = Scene(places: seq<Vec>, state: State)

  /** What the targets do not choose: the view of the cameras, the random numbers, and the
      order in which each target meets the obstacles. */
  datatype Chance = Chance(tracked: seq<bool>, draw: (nat, nat) -> nat, orders: seq<seq<Circle>>)

  /** One call of step. */
  datatype Call = Call(actions: seq<Vec>, chance: Chance)

  /** Without cameras nobody is tracked. */
  ghost predicate ValidChance(world: World, chance: Chance) {
    && |chance.tracked| == world.cfg.numTargets && |chance.orders| == world.cfg.numTargets
    && (forall t :: 0 <= t < world.cfg.numTargets ==> multiset(chance.orders[t]) == world.obstacles)
    && (world.cameras == 0 ==> forall t :: 0 <= t < world.cfg.numTargets ==> !chance.tracked[t])
  }

  ghost predicate ValidCall(world: World, call: Call) {
    |call.actions| == world.cfg.numTargets && ValidChance(world, call.chance)
  }

  ghost predicate ValidScene(world: World, scene: Scene) {
    && |scene.places| == world.cfg.numTargets
    && (forall t :: 0 <= t < world.cfg.numTargets ==> InTerrain(scene.places[t]))
    && Shaped(world.cfg, scene.state)
  }

  lemma PaceIsPositive(stepSize: real, capacity: nat)
    requires 0.0 < stepSize
    ensures 0.0 < Pace(stepSize, capacity)
    ensures 1 <= capacity ==> Pace(stepSize, capacity) * capacity as real == stepSize
  {
  }

  /** Where one target is after a call. */
  ghost function Place(world: World, scene: Scene, call: Call, t: nat): (p: Vec)
    requires ValidWorld(world) && ValidScene(world, scene) && ValidCall(world, call) && t < world.cfg.numTargets
    ensures InTerrain(p)
    ensures Norm(world.root, p.Minus(scene.places[t])) <= Pace(world.stepSize, scene.state.rows[t].capacity)
  {
    var pace := Pace(world.stepSize, scene.state.rows[t].capacity);
    PaceIsPositive(world.stepSize, scene.state.rows[t].capacity);
    assert forall c :: c in call.chance.orders[t] ==> c in multiset(call.chance.orders[t]);
    MoveIsBounded(world.root, scene.places[t], call.actions[t], pace, call.chance.orders[t]);
    Moved(world.root, scene.places[t], call.actions[t], pace, call.chance.orders[t])
  }

  ghost function Places(world: World, scene: Scene, call: Call): (places: seq<Vec>)
    requires ValidWorld(world) && ValidScene(world, scene) && ValidCall(world, call)
    ensures |places| == world.cfg.numTargets
  {
    seq(world.cfg.numTargets, t requires 0 <= t < world.cfg.numTargets => Place(world, scene, call, t))
  }

  function AllInside(places: seq<Vec>): (inside: seq<seq<bool>>)
    ensures |inside| == |places| && forall t :: 0 <= t < |places| ==> inside[t] == Inside(places[t])
  {
    seq(|places|, t requires 0 <= t < |places| => Inside(places[t]))
  }

  /** What the economy sees of a call. */
  ghost function InputOf(world: World, scene: Scene, call: Call): (input: Input)
    requires ValidWorld(world) && ValidScene(world, scene) && ValidCall(world, call)
    ensures ShapedInput(world.cfg, input)
  {
    Input(call.chance.tracked, AllInside(Places(world, scene, call)), call.chance.draw)
  }

  ghost function Next(world: World, scene: Scene, call: Call): (next: Scene)
    requires ValidWorld(world) && ValidScene(world, scene) && ValidCall(world, call)
    ensures ValidScene(world, next)
  {
    Scene(Places(world, scene, call), Step(world.cfg, scene.state, InputOf(world, scene, call)))
  }

  /** Where a call brings a target: at its pace, which times its capacity is the step size, along
      its action, sliding along one obstacle after the other, and not over the edge. */
  lemma PlaceIsExact(world: World, scene: Scene, call: Call, t: nat, k: real) returns (rays: seq<Vec>)
    requires ValidWorld(world) && ValidScene(world, scene) && ValidCall(world, call) && t < world.cfg.numTargets
    requires 0.0 <= k && Norm(world.root, call.actions[t].Times(k)) == Min(Pace(world.stepSize, scene.state.rows[t].capacity), Norm(world.root, call.actions[t]))
    ensures 1 <= scene.state.rows[t].capacity ==> Pace(world.stepSize, scene.state.rows[t].capacity) * scene.state.rows[t].capacity as real == world.stepSize
    ensures var circles := call.chance.orders[t];
      && |rays| == |circles| + 1 && rays[0] == call.actions[t].Times(k)
      && (forall i :: 0 <= i < |circles| ==> G.MeetsNext(circles, scene.places[t], rays, true, false, i))
      && Next(world, scene, call).places[t] == Clip(scene.places[t].Plus(rays[|circles|]))
  {
    hide IsRoot, Norm, Moved, G.MeetsNext, Clip, Pace, Step, Vec.Times, Vec.Plus;
    PaceIsPositive(world.stepSize, scene.state.rows[t].capacity);
    assert forall c :: c in call.chance.orders[t] ==> c in multiset(call.chance.orders[t]);
    rays := MoveIsExact(world.root, scene.places[t], call.actions[t], Pace(world.stepSize, scene.state.rows[t].capacity), call.chance.orders[t], k);
  }

  /** A call first moves the targets; then the cargo makes one step, with the targets where they
      have come to stand. */
  lemma CallIsStep(world: World, scene: Scene, call: Call, total: int) returns (input: Input, o: Outcome, trace: seq<Outcome>)
    requires ValidWorld(world) && ValidScene(world, scene) && ValidCall(world, call) && Invariant(world.cfg, scene.state, total)
    ensures ShapedInput(world.cfg, input) && input.tracked == call.chance.tracked
    ensures forall t :: 0 <= t < world.cfg.numTargets ==> input.inside[t] == Inside(Next(world, scene, call).places[t])
    ensures C.IsStep(world.cfg, scene.state, input, Next(world, scene, call).state, o, trace)
  {
    hide IsRoot, Invariant, C.IsStep, Step, Place, Inside;
    input := InputOf(world, scene, call);
    o, trace := C.StepIsStep(world.cfg, scene.state, input, total);
  }

  ghost predicate ValidCalls(world: World, calls: seq<Call>) {
    forall k :: 0 <= k < |calls| ==> ValidCall(world, calls[k])
  }

  ghost function Play(world: World, start: Scene, calls: seq<Call>): (scene: Scene)
    requires ValidWorld(world) && ValidScene(world, start) && ValidCalls(world, calls)
    ensures ValidScene(world, scene)
  {
    if calls == [] then start
    else
      assert ValidCall(world, calls[|calls| - 1]);
      Next(world, Play(world, start, calls[..|calls| - 1]), calls[|calls| - 1])
  }

  ghost function InputsOf(world: World, start: Scene, calls: seq<Call>): (inputs: seq<Input>)
    requires ValidWorld(world) && ValidScene(world, start) && ValidCalls(world, calls)
    ensures |inputs| == |calls|
    ensures forall k :: 0 <= k < |inputs| ==> ShapedInput(world.cfg, inputs[k])
  {
    hide Play, InputOf, IsRoot, ShapedInput;
    if calls == [] then []
    else
      assert ValidCall(world, calls[|calls| - 1]);
      OneMore(world.cfg, InputsOf(world, start, calls[..|calls| - 1]), InputOf(world, Play(world, start, calls[..|calls| - 1]), calls[|calls| - 1]))
  }

  function OneMore(cfg: Config, inputs: seq<Input>, input: Input): (more: seq<Input>)
    requires ShapedInput(cfg, input) && forall k :: 0 <= k < |inputs| ==> ShapedInput(cfg, inputs[k])
    ensures forall k :: 0 <= k < |more| ==> ShapedInput(cfg, more[k])
  {
    hide ShapedInput;
    inputs + [input]
  }

  /** A reset with the targets at some places: what it sees is what is there. */
  ghost predicate ValidOpening(world: World, reset: ResetInput, places: seq<Vec>) {
    && ValidWorld(world) && ValidReset(world.cfg, reset)
    && |places| == world.cfg.numTargets
    && (forall t :: 0 <= t < world.cfg.numTargets ==> InTerrain(places[t]))
    && reset.view.inside == AllInside(places)
  }

  ghost function Opening(world: World, reset: ResetInput, places: seq<Vec>): (scene: Scene)
    requires ValidOpening(world, reset, places)
    ensures ValidScene(world, scene)
  {
    Scene(places, Initial(world.cfg, reset))
  }

  /** The calls of an episode: none is made once the episode is over. */
  ghost predicate Episode(world: World, reset: ResetInput, places: seq<Vec>, calls: seq<Call>) {
    && ValidOpening(world, reset, places) && ValidCalls(world, calls)
    && forall k :: 0 <= k < |calls| ==> Going(world, Opening(world, reset, places), calls, k)
  }

  /** The episode is not over after k calls. */
  ghost predicate Going(world: World, start: Scene, calls: seq<Call>, k: nat)
    requires ValidWorld(world) && ValidScene(world, start) && ValidCalls(world, calls) && k <= |calls|
  {
    !Done(world.cfg, Play(world, start, calls[..k]).state)
  }

  /** The cargo after the calls of an episode. */
  ghost function Cargo(world: World, reset: ResetInput, places: seq<Vec>, calls: seq<Call>): State
    requires ValidOpening(world, reset, places) && ValidCalls(world, calls)
  {
    Play(world, Opening(world, reset, places), calls).state
  }

  lemma {:induction false} PlayRuns(world: World, start: Scene, calls: seq<Call>)
    requires ValidWorld(world) && ValidScene(world, start) && ValidCalls(world, calls)
    ensures Play(world, start, calls).state == Run(world.cfg, start.state, InputsOf(world, start, calls))
  {
    hide Step, InputOf;
    if calls != [] {
      var n := |calls| - 1;
      PlayRuns(world, start, calls[..n]);
      assert InputsOf(world, start, calls)[..n] == InputsOf(world, start, calls[..n]);
    }
  }

  /** Every episode with real movement is an episode of the economy, so all its laws hold. */
  lemma EpisodeIsRun(world: World, reset: ResetInput, places: seq<Vec>, calls: seq<Call>)
    requires ValidOpening(world, reset, places) && ValidCalls(world, calls)
    ensures var inputs := InputsOf(world, Opening(world, reset, places), calls);
      && ValidEpisode(world.cfg, reset, inputs)
      && Cargo(world, reset, places, calls) == After(world.cfg, reset, inputs)
    ensures Invariant(world.cfg, Cargo(world, reset, places, calls), InitialCargo(world.cfg, reset))
    ensures Cargo(world, reset, places, calls).clock == |calls|
  {
    hide Initial, Run, Invariant;
    var start := Opening(world, reset, places);
    PlayRuns(world, start, calls);
    EpisodeInvariant(world.cfg, reset, InputsOf(world, start, calls));
  }

  lemma CargoIsSound(world: World, reset: ResetInput, places: seq<Vec>, calls: seq<Call>)
    requires ValidOpening(world, reset, places) && ValidCalls(world, calls)
    ensures Invariant(world.cfg, Cargo(world, reset, places, calls), InitialCargo(world.cfg, reset))
    ensures Cargo(world, reset, places, calls).clock == |calls|
  {
    hide *;
    EpisodeIsRun(world, reset, places, calls);
  }

  /** An episode is over after one call more than configured at the latest. */
  lemma EpisodesAreShort(world: World, reset: ResetInput, places: seq<Vec>, calls: seq<Call>)
    requires Episode(world, reset, places, calls)
    ensures |calls| <= world.cfg.maxSteps + 1
  {
    hide Invariant, Play, Opening, IsRoot, ValidReset;
    if calls != [] {
      var n := |calls| - 1;
      assert Going(world, Opening(world, reset, places), calls, n);
      CargoIsSound(world, reset, places, calls[..n]);
    }
  }
}
