/** When the advertised maximum of the episode reward is one: the fill loop may need more
    than one round, and then an episode that is long enough earns more. */
module CargoMaximum {
  import opened FiniteSets
  import opened Sums
  import opened Vectors
  import opened TargetMotion
  import opened Obstruction
  import opened Terrain
  import opened CargoEconomy
  import opened CargoInvariants
  import opened CargoReset
  import opened CargoRuns
  import opened CargoReturns
  import opened CargoJourneys
  import opened CargoCompletion
  import T = CargoThroughput

  // ------------------------------------------------------- the rounds of the fill loop

  predicate Sends(round: seq<(nat, nat)>, w: nat) {
    exists k :: 0 <= k < |round| && round[k].0 == w
  }

  /** A round stocks exactly the warehouses that it sends from. */
  lemma {:induction false} StowStocks(remaining: seq<seq<nat>>, round: seq<(nat, nat)>, w: nat)
    requires ShapedStock(remaining) && w < NUM_WAREHOUSES
    requires forall p :: p in round ==> p.0 < NUM_WAREHOUSES && p.1 < NUM_WAREHOUSES
    ensures Stocked(Stow(remaining, round)[w]) <==> Stocked(remaining[w]) || Sends(round, w)
  {
    if round != [] {
      var n := |round| - 1;
      StowStocks(remaining, round[..n], w);
      var before, after := Stow(remaining, round[..n]), Stow(remaining, round);
      var (i, j) := round[n];
      assert round[n] in round;
      assert Sends(round, w) <==> Sends(round[..n], w) || i == w;
      if i == w {
        assert 0 < after[w][j];
      } else {
        assert after[w] == before[w];
      }
    }
  }

  /** The fill loop goes on until every warehouse has been a sender. */
  lemma {:induction false} FilledStocks(cfg: Config, rounds: seq<seq<(nat, nat)>>, w: nat)
    requires ValidRounds(cfg, rounds) && w < NUM_WAREHOUSES
    ensures Stocked(Filled(cfg, rounds)[w]) <==> exists k :: 0 <= k < |rounds| && Sends(rounds[k], w)
  {
    hide Stow, Stocked, Sends;
    if rounds == [] {
      NothingStocked(cfg, w);
    } else {
      var n := |rounds| - 1;
      FilledStocks(cfg, rounds[..n], w);
      assert ValidRound(cfg, rounds[n]);
      StowStocks(Filled(cfg, rounds[..n]), rounds[n], w);
    }
  }

  lemma NothingStocked(cfg: Config, w: nat)
    requires w < NUM_WAREHOUSES
    ensures !Stocked(Filled(cfg, [])[w])
  {
  }

  /** A round that sends from warehouse 0 only, and one that sends from all. */
  function PoorRound(cfg: Config): seq<(nat, nat)> {
    seq(cfg.cargoesPerTarget * cfg.numTargets, k => (0, 1))
  }

  function RichRound(cfg: Config): seq<(nat, nat)> {
    seq(cfg.cargoesPerTarget * cfg.numTargets, k => if k == 1 then (1, 0) else if k == 2 then (2, 0) else if k == 3 then (3, 0) else (0, 1))
  }

  lemma RoundsAreValid(cfg: Config)
    requires ValidConfig(cfg)
    ensures NUM_WAREHOUSES <= cfg.cargoesPerTarget * cfg.numTargets
    ensures ValidRound(cfg, PoorRound(cfg)) && ValidRound(cfg, RichRound(cfg))
    ensures !Sends(PoorRound(cfg), 1)
    ensures forall w :: 0 <= w < NUM_WAREHOUSES ==> Sends(RichRound(cfg), w)
  {
    assert cfg.cargoesPerTarget * 1 <= cfg.cargoesPerTarget * cfg.numTargets;
    var rich := RichRound(cfg);
    assert rich[0].0 == 0 && rich[1].0 == 1 && rich[2].0 == 2 && rich[3].0 == 3;
  }

  /** Nothing bounds the rounds of the fill loop: for every number, and wherever the targets
      are, some reset takes exactly so many. */
  lemma AnyNumberOfRounds(cfg: Config, k: nat, view: Input) returns (reset: ResetInput)
    requires ValidConfig(cfg) && 1 <= k && ShapedInput(cfg, view)
    ensures ValidReset(cfg, reset) && |reset.rounds| == k && reset.view == view
  {
    RoundsAreValid(cfg);
    var poor: seq<seq<(nat, nat)>> := seq(k - 1, i => PoorRound(cfg));
    var rounds := poor + [RichRound(cfg)];
    assert ValidRounds(cfg, rounds);
    hide Filled, Stocked, Sends, PoorRound, RichRound, ValidRound;
    forall w | 0 <= w < NUM_WAREHOUSES
      ensures Stocked(Filled(cfg, rounds)[w])
    {
      FilledStocks(cfg, rounds, w);
      assert Sends(rounds[k - 1], w);
    }
    forall i | 0 <= i < k
      ensures !AllStocked(Filled(cfg, rounds[..i]))
    {
      FilledStocks(cfg, rounds[..i], 1);
    }
    reset := ResetInput(FirstNumbers(cfg.numHeavy), rounds, view, _ => AllWarehouses(), _ => 0);
    assert IsPermutation(AllWarehouses(), NUM_WAREHOUSES);
  }

  // ------------------------------------------------------------- the nominal maximum

  /** The nominal maximum is one for all episodes after a reset. */
  ghost predicate MaximumHolds(world: World, reset: ResetInput, places: seq<Vec>) {
    forall calls :: Episode(world, reset, places, calls) ==> Cargo(world, reset, places, calls).dense <= NominalMaximum(world.cfg)
  }

  lemma EpisodeReturns(world: World, reset: ResetInput, places: seq<Vec>, calls: seq<Call>)
    requires ValidOpening(world, reset, places) && ValidCalls(world, calls)
    ensures var s := Cargo(world, reset, places, calls);
      && s.dense <= s.delivered * (world.cfg.freightScale + world.cfg.bountyScale)
      && (world.cameras == 0 ==> s.dense == s.delivered * (world.cfg.freightScale + world.cfg.bountyScale))
      && s.dense <= |reset.rounds| * NominalMaximum(world.cfg)
  {
    hide Cargo, After, ValidReset, IsRoot, InputsOf, Opening, NominalMaximum;
    var inputs := InputsOf(world, Opening(world, reset, places), calls);
    EpisodeIsRun(world, reset, places, calls);
    DeliveriesAreFair(world.cfg, reset, inputs);
    RewardsTelescope(world.cfg, reset, inputs);
    ReturnIsBounded(world.cfg, reset, inputs);
    if world.cameras == 0 {
      forall k | 0 <= k < |inputs|
        ensures Untracked(inputs[k])
      {
        NobodyIsTracked(world, Opening(world, reset, places), calls, k);
      }
      UntrackedEpisodePaysInFull(world.cfg, reset, inputs);
    }
  }

  lemma {:induction false} NobodyIsTracked(world: World, start: Scene, calls: seq<Call>, k: nat)
    requires ValidWorld(world) && ValidScene(world, start) && ValidCalls(world, calls) && world.cameras == 0 && k < |calls|
    ensures Untracked(InputsOf(world, start, calls)[k])
  {
    hide Play, IsRoot;
    assert ValidCall(world, calls[|calls| - 1]);
    if k < |calls| - 1 {
      NobodyIsTracked(world, start, calls[..|calls| - 1], k);
    }
  }

  lemma PriceOrder(delivered: int, perRound: int, price: int)
    requires 0 < price
    ensures delivered * price <= price * perRound <==> delivered <= perRound
  {
    if delivered <= perRound {
      assert delivered * price <= perRound * price;
    } else {
      assert (perRound + 1) * price <= delivered * price;
    }
  }

  /** An episode earns more than the nominal maximum only if it delivers more than one round
      of cargo, and, when no camera takes anything off, exactly if it does. */
  lemma SecondRoundDecides(world: World, reset: ResetInput, places: seq<Vec>, calls: seq<Call>)
    requires ValidOpening(world, reset, places) && ValidCalls(world, calls)
    ensures var s, perRound := Cargo(world, reset, places, calls), world.cfg.cargoesPerTarget * world.cfg.numTargets;
      && (NominalMaximum(world.cfg) < s.dense ==> perRound < s.delivered)
      && (world.cameras == 0 ==> (NominalMaximum(world.cfg) < s.dense <==> perRound < s.delivered))
  {
    hide Cargo, ValidReset, IsRoot;
    EpisodeReturns(world, reset, places, calls);
    PriceOrder(Cargo(world, reset, places, calls).delivered, world.cfg.cargoesPerTarget * world.cfg.numTargets, world.cfg.freightScale + world.cfg.bountyScale);
  }

  /** If all steps of an episode do not take a target across the gap between two warehouses
      often enough, the maximum holds however much cargo there is. */
  lemma ShortEpisodesKeepMaximum(world: World, reset: ResetInput, places: seq<Vec>)
    requires ValidOpening(world, reset, places)
    requires T.Way(world.cfg.maxSteps + 1, world.stepSize) <= WAREHOUSE_GAP * (world.cfg.cargoesPerTarget - 2) as real
    ensures MaximumHolds(world, reset, places)
  {
    hide Cargo, ValidReset, IsRoot, NominalMaximum, Opening, Going, T.Way;
    forall calls | Episode(world, reset, places, calls)
      ensures Cargo(world, reset, places, calls).dense <= NominalMaximum(world.cfg)
    {
      EpisodesAreShort(world, reset, places, calls);
      T.ThroughputIsLimited(world, reset, places, calls);
      WayOrder(|calls|, world.cfg.maxSteps + 1, world.stepSize);
      TooLittle(world.cfg.numTargets, world.cfg.cargoesPerTarget, Cargo(world, reset, places, calls).delivered, T.Way(|calls|, world.stepSize));
      SecondRoundDecides(world, reset, places, calls);
    }
  }

  lemma WayOrder(m: nat, n: nat, stepSize: real)
    requires m <= n && 0.0 < stepSize
    ensures T.Way(m, stepSize) <= T.Way(n, stepSize)
  {
    assert 0.0 <= (n - m) as real * stepSize;
  }

  lemma TooLittle(numTargets: nat, perTarget: nat, delivered: int, way: real)
    requires way <= WAREHOUSE_GAP * (perTarget - 2) as real
    requires WAREHOUSE_GAP * delivered as real <= numTargets as real * (2.0 * WAREHOUSE_GAP + way)
    ensures delivered <= perTarget * numTargets
  {
    var n, c := numTargets as real, perTarget as real;
    assert 2.0 * WAREHOUSE_GAP + way <= WAREHOUSE_GAP * c;
    assert n * (2.0 * WAREHOUSE_GAP + way) <= n * (WAREHOUSE_GAP * c);
    assert n * (WAREHOUSE_GAP * c) == WAREHOUSE_GAP * (n * c);
    assert n * c == (perTarget * numTargets) as real;
  }

  /** The calls in which all cargo can surely be delivered, with two errands for each unit
      and one for each target. */
  function EnoughCalls(world: World, reset: ResetInput, delay: nat): int {
    Times(delay + 1, 2 * InitialCargo(world.cfg, reset) + world.cfg.numTargets)
  }

  lemma {:induction false} AnyOrder(circles: multiset<Circle>) returns (order: seq<Circle>)
    ensures multiset(order) == circles
    decreases |circles|
  {
    if circles == multiset{} {
      order := [];
    } else {
      var c :| c in circles;
      var rest := AnyOrder(circles - multiset{c});
      order := rest + [c];
    }
  }

  lemma EverythingIsAwaited(cfg: Config, reset: ResetInput)
    requires ValidConfig(cfg) && ValidReset(cfg, reset)
    ensures Sum(Initial(cfg, reset).awaiting) == InitialCargo(cfg, reset)
  {
    hide Initial;
    ResetIsSound(cfg, reset);
  }

  lemma SomeChance(world: World) returns (chance: Chance)
    ensures ValidChance(world, chance)
  {
    var order := AnyOrder(world.obstacles);
    chance := Chance(NoneTracked(world.cfg), (t, w) => 0, seq(world.cfg.numTargets, t => order));
  }

  lemma WorkAtFirst(world: World, reset: ResetInput, places: seq<Vec>)
    requires ValidOpening(world, reset, places)
    ensures Episode(world, reset, places, [])
    ensures Play(world, Opening(world, reset, places), []) == Opening(world, reset, places)
    ensures 0 <= Work(Opening(world, reset, places).state) <= 2 * InitialCargo(world.cfg, reset) + world.cfg.numTargets
  {
    hide Invariant, Initial, ValidReset, IsRoot, Work;
    ResetIsSound(world.cfg, reset);
    EverythingIsAwaited(world.cfg, reset);
    WorkIsLeft(world.cfg, Initial(world.cfg, reset), InitialCargo(world.cfg, reset));
  }

  /** With time enough and no cameras some episode earns the full price of all rounds. */
  lemma FullPriceCanBeEarned(world: World, guide: Guide, reset: ResetInput, places: seq<Vec>) returns (all: seq<Call>)
    requires ValidOpening(world, reset, places) && world.cameras == 0 && Leads(world, guide)
    requires forall t :: 0 <= t < |places| ==> guide.free(places[t])
    requires EnoughCalls(world, reset, guide.delay) <= world.cfg.maxSteps + 1
    ensures Episode(world, reset, places, all)
    ensures Cargo(world, reset, places, all).dense == |reset.rounds| * NominalMaximum(world.cfg)
  {
    hide Opening, Play, ValidReset, Leads, IsRoot, Times, Work, ValidChance, InitialCargo, NominalMaximum;
    var cfg, total, start := world.cfg, InitialCargo(world.cfg, reset), Opening(world, reset, places);
    WorkAtFirst(world, reset, places);
    TimesOrder(guide.delay + 1, Work(start.state), 2 * total + cfg.numTargets);
    OpeningPlaces(world, reset, places);
    var chance := SomeChance(world);
    all := CanBeCompleted(world, guide, reset, places, [], _ => chance);
    FullPrice(world, reset, places, all);
  }

  lemma OpeningPlaces(world: World, reset: ResetInput, places: seq<Vec>)
    requires ValidOpening(world, reset, places)
    ensures Opening(world, reset, places).places == places
  {
  }

  lemma FullPrice(world: World, reset: ResetInput, places: seq<Vec>, all: seq<Call>)
    requires ValidOpening(world, reset, places) && ValidCalls(world, all) && world.cameras == 0
    requires Cargo(world, reset, places, all).delivered == InitialCargo(world.cfg, reset)
    ensures Cargo(world, reset, places, all).dense == |reset.rounds| * NominalMaximum(world.cfg)
  {
    hide Cargo, ValidReset, IsRoot;
    var cfg, total := world.cfg, InitialCargo(world.cfg, reset);
    EpisodeReturns(world, reset, places, all);
    PriceOfAll(total, |reset.rounds|, cfg.cargoesPerTarget * cfg.numTargets, cfg.freightScale + cfg.bountyScale);
  }

  /** In an environment without cameras where the warehouses can be found and the time limit
      is not short, the nominal maximum is one exactly for the episodes whose stock was
      filled in a single round. */
  lemma NominalMaximumIsExact(world: World, guide: Guide, reset: ResetInput, places: seq<Vec>)
    requires ValidOpening(world, reset, places) && world.cameras == 0 && Leads(world, guide)
    requires forall t :: 0 <= t < |places| ==> guide.free(places[t])
    requires EnoughCalls(world, reset, guide.delay) <= world.cfg.maxSteps + 1
    ensures MaximumHolds(world, reset, places) <==> |reset.rounds| == 1
  {
    hide Cargo, ValidReset, IsRoot, Going, Leads, Times, InitialCargo;
    EnoughCargo(world.cfg, reset);
    MaximumIsPositive(world.cfg);
    if |reset.rounds| == 1 {
      OneRoundKeepsMaximum(world, reset, places);
    } else {
      var all := FullPriceCanBeEarned(world, guide, reset, places);
      assert 2 * NominalMaximum(world.cfg) <= |reset.rounds| * NominalMaximum(world.cfg);
    }
  }

  /** After a single round the maximum holds in every environment. */
  lemma OneRoundKeepsMaximum(world: World, reset: ResetInput, places: seq<Vec>)
    requires ValidOpening(world, reset, places) && |reset.rounds| == 1
    ensures MaximumHolds(world, reset, places)
  {
    hide Cargo, ValidReset, IsRoot, Going, NominalMaximum;
    forall calls | Episode(world, reset, places, calls)
      ensures Cargo(world, reset, places, calls).dense <= NominalMaximum(world.cfg)
    {
      EpisodeReturns(world, reset, places, calls);
    }
  }

  lemma MaximumIsPositive(cfg: Config)
    requires ValidConfig(cfg)
    ensures 0 < NominalMaximum(cfg)
  {
    var perRound := cfg.cargoesPerTarget * cfg.numTargets;
    assert cfg.numTargets <= perRound;
    assert perRound <= (cfg.freightScale + cfg.bountyScale) * perRound;
  }

  /** The maximum is exceeded in every open terrain without cameras, wherever the targets
      start, if the episode is long enough for two rounds of cargo: the second round may be
      drawn, and then the targets can earn twice the maximum. */
  lemma MaximumCanBeExceeded(world: World, places: seq<Vec>) returns (reset: ResetInput, calls: seq<Call>)
    requires ValidWorld(world) && world.cameras == 0 && world.obstacles == multiset{}
    requires |places| == world.cfg.numTargets && forall t :: 0 <= t < |places| ==> InTerrain(places[t])
    requires Times(4 * world.cfg.freightScale + 1, (4 * world.cfg.cargoesPerTarget + 1) * world.cfg.numTargets) <= world.cfg.maxSteps + 1
    ensures Episode(world, reset, places, calls) && |reset.rounds| == 2
    ensures Cargo(world, reset, places, calls).dense == 2 * NominalMaximum(world.cfg)
    ensures NominalMaximum(world.cfg) < Cargo(world, reset, places, calls).dense
  {
    hide Cargo, ValidReset, IsRoot, Going, Leads, Times, Inside;
    reset := AnyNumberOfRounds(world.cfg, 2, Input(NoneTracked(world.cfg), AllInside(places), (t, w) => 0));
    OpenTerrainLeads(world);
    assert 2 * (2 * (world.cfg.cargoesPerTarget * world.cfg.numTargets)) + world.cfg.numTargets == (4 * world.cfg.cargoesPerTarget + 1) * world.cfg.numTargets;
    calls := FullPriceCanBeEarned(world, OpenGuide(world), reset, places);
    MaximumIsPositive(world.cfg);
  }
}
