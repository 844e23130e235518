/** The laws of the cargo economy over whole episodes: any reset, any number of steps,
    any view, any movement and any random choice. */
module CargoRuns {
  import opened Integers
  import opened Sums
  import opened CargoEconomy
  import opened CargoInvariants
  import opened CargoReset
  import opened CargoSteps

  ghost predicate ValidEpisode(cfg: Config, reset: ResetInput, inputs: seq<Input>) {
    && ValidConfig(cfg) && ValidReset(cfg, reset)
    && forall k :: 0 <= k < |inputs| ==> ShapedInput(cfg, inputs[k])
  }

  /** The state after a reset and some steps. */
  ghost function After(cfg: Config, reset: ResetInput, inputs: seq<Input>): (s: State)
    requires ValidEpisode(cfg, reset, inputs)
    ensures Shaped(cfg, s)
  {
    Run(cfg, Initial(cfg, reset), inputs)
  }

  lemma {:induction false} RunKeeps(cfg: Config, s: State, inputs: seq<Input>, total: int)
    requires ValidConfig(cfg) && Invariant(cfg, s, total)
    requires forall k :: 0 <= k < |inputs| ==> ShapedInput(cfg, inputs[k])
    ensures Invariant(cfg, Run(cfg, s, inputs), total)
    ensures Run(cfg, s, inputs).clock == s.clock + |inputs|
  {
    if inputs != [] {
      var n := |inputs| - 1;
      RunKeeps(cfg, s, inputs[..n], total);
      StepKeeps(cfg, Run(cfg, s, inputs[..n]), inputs[n], total);
      AssignGoalsOnlyPays(cfg, Run(cfg, s, inputs[..n]), inputs[n]);
    }
  }

  lemma EpisodeInvariant(cfg: Config, reset: ResetInput, inputs: seq<Input>)
    requires ValidEpisode(cfg, reset, inputs)
    ensures Invariant(cfg, After(cfg, reset, inputs), InitialCargo(cfg, reset))
    ensures After(cfg, reset, inputs).clock == |inputs|
  {
    hide Initial, Run, Invariant, Step;
    ResetIsSound(cfg, reset);
    RunKeeps(cfg, Initial(cfg, reset), inputs, InitialCargo(cfg, reset));
  }

  lemma RowIsSound(cfg: Config, s: State, total: int, t: nat)
    requires Invariant(cfg, s, total) && t < cfg.numTargets
    ensures RowInvariant(cfg, s.rows[t], false)
  {
    assert RowInvariant(cfg, s.rows[t], NoneTracked(cfg)[t]);
  }

  /** Cargo is neither lost nor made: a warehouse awaits exactly what is stored or carried
      for it, and what was delivered plus what is awaited is what the episode began with. */
  lemma CargoIsConserved(cfg: Config, reset: ResetInput, inputs: seq<Input>)
    requires ValidEpisode(cfg, reset, inputs)
    ensures var s := After(cfg, reset, inputs);
      && (forall w :: 0 <= w < NUM_WAREHOUSES ==>
            && s.awaiting[w] == Sum(Column(s.remaining, w)) + Sum(InTransit(s.rows, w))
            && 0 <= s.awaiting[w])
      && s.delivered + Sum(s.awaiting) == |reset.rounds| * (cfg.cargoesPerTarget * cfg.numTargets)
      && 0 <= s.delivered <= |reset.rounds| * (cfg.cargoesPerTarget * cfg.numTargets)
  {
    hide After;
    EpisodeInvariant(cfg, reset, inputs);
    var s := After(cfg, reset, inputs);
    forall w | 0 <= w < NUM_WAREHOUSES
      ensures 0 <= s.awaiting[w]
    {
      AwaitingIsNatural(cfg, s, InitialCargo(cfg, reset), w);
    }
    SumNonNegative(s.awaiting);
  }

  lemma AwaitingIsNatural(cfg: Config, s: State, total: int, w: nat)
    requires Invariant(cfg, s, total) && w < NUM_WAREHOUSES
    ensures 0 <= s.awaiting[w]
  {
    SumNonNegative(Column(s.remaining, w));
    SumNonNegative(InTransit(s.rows, w));
  }

  predicate NothingAwaited(s: State) {
    forall w :: 0 <= w < |s.awaiting| ==> s.awaiting[w] == 0
  }

  predicate NothingLeft(s: State) {
    && (forall i :: 0 <= i < |s.remaining| ==> !Stocked(s.remaining[i]))
    && (forall t :: 0 <= t < |s.rows| ==> s.rows[t].goal == -1)
  }

  lemma StockIsAwaited(cfg: Config, s: State, total: int, i: nat)
    requires Invariant(cfg, s, total) && i < NUM_WAREHOUSES && Stocked(s.remaining[i])
    ensures !NothingAwaited(s)
  {
    var j :| 0 <= j < NUM_WAREHOUSES && 0 < s.remaining[i][j];
    SumAtLeast(Column(s.remaining, j), i);
    SumNonNegative(InTransit(s.rows, j));
    assert 0 < s.awaiting[j];
  }

  lemma LoadIsAwaited(cfg: Config, s: State, total: int, t: nat)
    requires Invariant(cfg, s, total) && t < cfg.numTargets && 0 <= s.rows[t].goal
    ensures !NothingAwaited(s)
  {
    RowIsSound(cfg, s, total, t);
    var g := s.rows[t].goal;
    SumAtLeast(InTransit(s.rows, g), t);
    SumNonNegative(Column(s.remaining, g));
    assert 0 < s.awaiting[g];
  }

  /** The test that ends an episode early, whether anything is awaited, is false exactly
      when all stock is gone and no target carries anything. */
  lemma AwaitingIsExact(cfg: Config, s: State, total: int)
    requires ValidConfig(cfg) && Invariant(cfg, s, total)
    ensures NothingAwaited(s) <==> NothingLeft(s)
    ensures NothingAwaited(s) <==> s.delivered == total
  {
    if NothingAwaited(s) {
      forall i | 0 <= i < NUM_WAREHOUSES ensures !Stocked(s.remaining[i]) {
        if Stocked(s.remaining[i]) { StockIsAwaited(cfg, s, total, i); }
      }
      forall t | 0 <= t < cfg.numTargets ensures s.rows[t].goal == -1 {
        RowIsSound(cfg, s, total, t);
        if 0 <= s.rows[t].goal { LoadIsAwaited(cfg, s, total, t); }
      }
      SumOfZeros(s.awaiting);
    }
    if NothingLeft(s) {
      forall w | 0 <= w < NUM_WAREHOUSES ensures s.awaiting[w] == 0 {
        EmptyColumns(s.remaining, w);
        forall t | 0 <= t < cfg.numTargets ensures s.rows[t].bits == Zeros() {
          RowIsSound(cfg, s, total, t);
        }
        SumOfZeros(InTransit(s.rows, w));
      }
    }
    if s.delivered == total {
      forall w | 0 <= w < NUM_WAREHOUSES ensures s.awaiting[w] == 0 {
        forall v | 0 <= v < NUM_WAREHOUSES ensures 0 <= s.awaiting[v] {
          AwaitingIsNatural(cfg, s, total, v);
        }
        SumAtLeast(s.awaiting, w);
      }
    }
  }

  /** An episode is over exactly when one step more than the configured number has been
      made or everything has been delivered; so it always ends after that many steps. */
  lemma EpisodeEnds(cfg: Config, reset: ResetInput, inputs: seq<Input>)
    requires ValidEpisode(cfg, reset, inputs)
    ensures var s := After(cfg, reset, inputs);
      Done(cfg, s) <==> cfg.maxSteps + 1 <= |inputs| || s.delivered == InitialCargo(cfg, reset)
  {
    hide After;
    EpisodeInvariant(cfg, reset, inputs);
    AwaitingIsExact(cfg, After(cfg, reset, inputs), InitialCargo(cfg, reset));
  }

  /** The dense return of an episode lags behind the delayed one by exactly the bounty lost
      on the loads still under way; the two agree once everything is delivered. */
  lemma RewardsTelescope(cfg: Config, reset: ResetInput, inputs: seq<Input>)
    requires ValidEpisode(cfg, reset, inputs)
    ensures var s := After(cfg, reset, inputs);
      && s.dense == s.delayed - Sum(Debts(cfg, s.rows))
      && s.dense <= s.delayed
      && (s.delivered == InitialCargo(cfg, reset) ==> s.dense == s.delayed)
  {
    hide After;
    EpisodeInvariant(cfg, reset, inputs);
    var s := After(cfg, reset, inputs);
    forall t | 0 <= t < cfg.numTargets ensures 0 <= Debt(cfg, s.rows[t]) {
      RowIsSound(cfg, s, InitialCargo(cfg, reset), t);
    }
    SumNonNegative(Debts(cfg, s.rows));
    if s.delivered == InitialCargo(cfg, reset) {
      AwaitingIsExact(cfg, s, InitialCargo(cfg, reset));
      SumOfZeros(Debts(cfg, s.rows));
    }
  }

  /** In every state all records of a target's load agree. */
  lemma LoadRecordsAgree(cfg: Config, reset: ResetInput, inputs: seq<Input>, t: nat)
    requires ValidEpisode(cfg, reset, inputs) && t < cfg.numTargets
    ensures var r := After(cfg, reset, inputs).rows[t];
      && r.entityBits == r.bits
      && (r.goal == -1 <==> r.bits == [0, 0, 0, 0])
      && (r.goal == -1 ==> r.freight == 0 && r.bounty == 0)
      && (r.goal != -1 ==>
            && (forall w :: 0 <= w < NUM_WAREHOUSES && w != r.goal ==> r.bits[w] == 0)
            && 1 <= r.bits[r.goal] <= r.capacity <= 2
            && r.freight == r.bits[r.goal] * cfg.freightScale
            && 0 <= r.bounty <= r.bits[r.goal] * cfg.bountyScale)
  {
    hide After;
    EpisodeInvariant(cfg, reset, inputs);
    RowIsSound(cfg, After(cfg, reset, inputs), InitialCargo(cfg, reset), t);
  }

  lemma {:induction false} RunKeepsCapacity(cfg: Config, s: State, inputs: seq<Input>, t: nat)
    requires Shaped(cfg, s) && t < cfg.numTargets && forall k :: 0 <= k < |inputs| ==> ShapedInput(cfg, inputs[k])
    ensures Run(cfg, s, inputs).rows[t].capacity == s.rows[t].capacity
  {
    hide Step;
    if inputs != [] {
      RunKeepsCapacity(cfg, s, inputs[..|inputs| - 1], t);
      StepKeepsCapacity(cfg, Run(cfg, s, inputs[..|inputs| - 1]), inputs[|inputs| - 1], t);
    }
  }

  /** Throughout an episode the heavy targets, as many as configured, can carry two units, and
      all others one. */
  lemma CapacitiesAreFixed(cfg: Config, reset: ResetInput, inputs: seq<Input>)
    requires ValidEpisode(cfg, reset, inputs)
    ensures |After(cfg, reset, inputs).rows| == cfg.numTargets
    ensures forall t :: 0 <= t < cfg.numTargets ==> After(cfg, reset, inputs).rows[t].capacity == if t in reset.heavy then 2 else 1
    ensures |reset.heavy| == cfg.numHeavy
  {
    hide Initial, Run;
    forall t | 0 <= t < cfg.numTargets
      ensures After(cfg, reset, inputs).rows[t].capacity == if t in reset.heavy then 2 else 1
    {
      CapacitiesAtFirst(cfg, reset, t);
      RunKeepsCapacity(cfg, Initial(cfg, reset), inputs, t);
    }
  }

  /** The bounty of a load is its full worth less one for each tracked step, where the step
      in which the load was taken may or may not count. */
  lemma BountyClock(cfg: Config, reset: ResetInput, inputs: seq<Input>, t: nat)
    requires ValidEpisode(cfg, reset, inputs) && t < cfg.numTargets
    ensures var r := After(cfg, reset, inputs).rows[t];
      && r.tracked <= r.steps
      && (r.goal != -1 ==>
            var full := r.bits[r.goal] * cfg.bountyScale;
            && Max(0, full - r.tracked) <= r.bounty
            && r.bounty <= full
            && r.bounty <= Max(0, full - r.tracked + 1))
  {
    hide After;
    EpisodeInvariant(cfg, reset, inputs);
    RowIsSound(cfg, After(cfg, reset, inputs), InitialCargo(cfg, reset), t);
  }

  lemma {:induction false} RunRemembers(cfg: Config, s: State, inputs: seq<Input>, t: nat, w: nat)
    requires Shaped(cfg, s) && forall k :: 0 <= k < |inputs| ==> ShapedInput(cfg, inputs[k])
    requires t < cfg.numTargets && w < NUM_WAREHOUSES
    requires s.rows[t].empty[w] && !Stocked(s.remaining[w])
    ensures var s' := Run(cfg, s, inputs); s'.rows[t].empty[w] && !Stocked(s'.remaining[w])
  {
    hide Step;
    if inputs != [] {
      var n := |inputs| - 1;
      RunRemembers(cfg, s, inputs[..n], t, w);
      StepRemembers(cfg, Run(cfg, s, inputs[..n]), inputs[n], t, w);
    }
  }

  /** The target stands in the warehouse in step k. */
  predicate Visits(inputs: seq<Input>, k: nat, t: nat, w: nat)
    requires k < |inputs|
  {
    t < |inputs[k].inside| && w < |inputs[k].inside[t]| && inputs[k].inside[t][w]
  }

  lemma {:induction false} RunTeaches(cfg: Config, s: State, inputs: seq<Input>, t: nat, w: nat)
    requires Shaped(cfg, s) && forall k :: 0 <= k < |inputs| ==> ShapedInput(cfg, inputs[k])
    requires t < cfg.numTargets && w < NUM_WAREHOUSES
    ensures Run(cfg, s, inputs).rows[t].empty[w] ==> s.rows[t].empty[w] || exists k :: 0 <= k < |inputs| && Visits(inputs, k, t, w)
  {
    hide Step, Stocked;
    if inputs != [] {
      var n := |inputs| - 1;
      RunTeaches(cfg, s, inputs[..n], t, w);
      StepTeaches(cfg, Run(cfg, s, inputs[..n]), inputs[n], t, w);
      if Visits(inputs, n, t, w) {
      } else if exists k :: 0 <= k < n && Visits(inputs[..n], k, t, w) {
        var k :| 0 <= k < n && Visits(inputs[..n], k, t, w);
        assert Visits(inputs, k, t, w);
      }
    }
  }

  /** Knowledge comes from visits alone: a target that did not know at the reset that a
      warehouse was empty has stood in it since. */
  lemma KnowledgeComesFromVisits(cfg: Config, reset: ResetInput, inputs: seq<Input>, t: nat, w: nat)
    requires ValidEpisode(cfg, reset, inputs) && t < cfg.numTargets && w < NUM_WAREHOUSES
    ensures After(cfg, reset, inputs).rows[t].empty[w]
      ==> Initial(cfg, reset).rows[t].empty[w] || exists k :: 0 <= k < |inputs| && Visits(inputs, k, t, w)
  {
    hide Initial, Run;
    RunTeaches(cfg, Initial(cfg, reset), inputs, t, w);
  }

  /** Whoever has visited an empty warehouse knows for the rest of the episode. */
  lemma VisitsTeach(cfg: Config, reset: ResetInput, before: seq<Input>, visit: Input, later: seq<Input>, t: nat, w: nat)
    requires ValidEpisode(cfg, reset, before + [visit] + later) && ValidEpisode(cfg, reset, before)
    requires t < cfg.numTargets && w < NUM_WAREHOUSES
    requires |visit.inside| == cfg.numTargets && |visit.inside[t]| == NUM_WAREHOUSES && visit.inside[t][w]
    ensures !Stocked(After(cfg, reset, before).remaining[w]) ==> After(cfg, reset, before + [visit] + later).rows[t].empty[w]
  {
    hide Initial, Run, Step, Stocked, ValidReset;
    var all, s := before + [visit] + later, After(cfg, reset, before);
    assert all[|before|] == visit && all[..|before|] == before && all[|before| + 1..] == later;
    if !Stocked(s.remaining[w]) {
      StepTeaches(cfg, s, visit, t, w);
      StepEmpties(cfg, s, visit, w);
      RunRemembers(cfg, Step(cfg, s, visit), later, t, w);
      RunInParts(cfg, Initial(cfg, reset), before, visit, later);
    }
  }

  /** One step in the middle of a run. */
  lemma RunInParts(cfg: Config, s: State, before: seq<Input>, input: Input, later: seq<Input>)
    requires Shaped(cfg, s) && forall k :: 0 <= k < |before| ==> ShapedInput(cfg, before[k])
    requires ShapedInput(cfg, input) && forall k :: 0 <= k < |later| ==> ShapedInput(cfg, later[k])
    ensures Run(cfg, s, before + [input] + later) == Run(cfg, Step(cfg, Run(cfg, s, before), input), later)
  {
    hide Step, ShapedInput;
    assert (before + [input])[..|before|] == before;
    RunTwice(cfg, s, before + [input], later);
  }

  lemma {:induction false} RunTwice(cfg: Config, s: State, first: seq<Input>, second: seq<Input>)
    requires Shaped(cfg, s) && forall k :: 0 <= k < |first| ==> ShapedInput(cfg, first[k])
    requires forall k :: 0 <= k < |second| ==> ShapedInput(cfg, second[k])
    ensures Run(cfg, s, first + second) == Run(cfg, Run(cfg, s, first), second)
  {
    hide Step, ShapedInput;
    if second == [] {
      assert first + second == first;
    } else {
      var n := |second| - 1;
      RunTwice(cfg, s, first, second[..n]);
      assert (first + second)[..|first| + n] == first + second[..n];
    }
  }

  /** A target that has been told that a warehouse is empty is right, and stays right and
      told so for the rest of the episode. */
  lemma KnowledgeIsPermanent(cfg: Config, reset: ResetInput, inputs: seq<Input>, later: seq<Input>, t: nat, w: nat)
    requires ValidEpisode(cfg, reset, inputs) && ValidEpisode(cfg, reset, inputs + later)
    requires t < cfg.numTargets && w < NUM_WAREHOUSES
    ensures After(cfg, reset, inputs).rows[t].empty[w] ==>
      After(cfg, reset, inputs + later).rows[t].empty[w] && !Stocked(After(cfg, reset, inputs + later).remaining[w])
  {
    hide Initial, Run, Step, Invariant, ValidReset, Stocked;
    var s := After(cfg, reset, inputs);
    assert later == (inputs + later)[|inputs|..];
    RunTwice(cfg, Initial(cfg, reset), inputs, later);
    if s.rows[t].empty[w] {
      EpisodeInvariant(cfg, reset, inputs);
      KnowledgeIsSound(cfg, s, InitialCargo(cfg, reset), t, w);
      RunRemembers(cfg, s, later, t, w);
    }
  }

  lemma KnowledgeIsSound(cfg: Config, s: State, total: int, t: nat, w: nat)
    requires Shaped(cfg, s) && Invariant(cfg, s, total) && t < cfg.numTargets && w < NUM_WAREHOUSES
    ensures s.rows[t].empty[w] ==> !Stocked(s.remaining[w])
  {
  }

  /** The mean transport rate, as reported with every observation. */
  function MeanTransportRate(cfg: Config, s: State): real
    requires ValidConfig(cfg)
  {
    if 0 < s.delivered then Rate(cfg.freightScale + cfg.bountyScale, s.delivered, s.delayed) else 0.0
  }

  function Rate(scale: int, delivered: int, reward: int): real
    requires 0 < scale && 0 < delivered
  {
    var product := scale * delivered;
    assert 0 < product;
    reward as real / product as real
  }

  /** The mean transport rate is the delayed return as a share of the full price of all that
      was delivered.  Each delivered unit has earned its freight give or take a full bounty, so
      it lies between (F - B) / (F + B) and one; it is zero before anything is delivered. */
  lemma TransportRate(cfg: Config, reset: ResetInput, inputs: seq<Input>)
    requires ValidEpisode(cfg, reset, inputs)
    ensures var s, rate := After(cfg, reset, inputs), MeanTransportRate(cfg, After(cfg, reset, inputs));
      && rate * ((cfg.freightScale + cfg.bountyScale) * s.delivered) as real == (if 0 < s.delivered then s.delayed as real else 0.0)
      && (s.delivered == 0 ==> rate == 0.0)
      && (0 < s.delivered ==> (cfg.freightScale - cfg.bountyScale) as real / (cfg.freightScale + cfg.bountyScale) as real <= rate <= 1.0)
  {
    hide After, Rate;
    var s := After(cfg, reset, inputs);
    DeliveriesAreFair(cfg, reset, inputs);
    if 0 < s.delivered {
      RateBounds(cfg.freightScale - cfg.bountyScale, cfg.freightScale + cfg.bountyScale, s.delivered, s.delayed);
      RateTimes(cfg.freightScale + cfg.bountyScale, s.delivered, s.delayed);
      RateOfOne(cfg.freightScale + cfg.bountyScale, cfg.freightScale - cfg.bountyScale);
    }
  }

  lemma RateTimes(scale: int, delivered: int, reward: int)
    requires 0 < scale && 0 < delivered
    ensures Rate(scale, delivered, reward) * (scale * delivered) as real == reward as real
  {
    assert 0 < scale * delivered;
  }

  lemma RateOfOne(scale: int, reward: int)
    requires 0 < scale
    ensures Rate(scale, 1, reward) == reward as real / scale as real
  {
    assert scale * 1 == scale;
  }

  lemma DeliveriesAreFair(cfg: Config, reset: ResetInput, inputs: seq<Input>)
    requires ValidEpisode(cfg, reset, inputs)
    ensures var s := After(cfg, reset, inputs); PaidFairly(cfg, s.delivered, s.delayed)
  {
    hide After;
    EpisodeInvariant(cfg, reset, inputs);
  }

  lemma RateBounds(low: int, high: int, delivered: int, delayed: int)
    requires 0 < high && 0 < delivered
    requires delivered * low <= delayed <= delivered * high
    ensures Rate(high, 1, low) <= Rate(high, delivered, delayed) <= 1.0
  {
    var l, h, d, y := low as real, high as real, delivered as real, delayed as real;
    assert d * l == (delivered * low) as real && h * d == (high * delivered) as real;
    assert high * 1 == high;
    QuotientOfProducts(l, h, d, y);
  }

  lemma QuotientOfProducts(l: real, h: real, d: real, y: real)
    requires 0.0 < h && 0.0 < d
    requires d * l <= y <= d * h
    ensures 0.0 < h * d
    ensures l / h <= y / (h * d) <= 1.0
  {
    var q, c := l / h, h * d;
    assert q * h == l;
    assert q * c == (q * h) * d == d * l;
    QuotientAtLeast(q, y, c);
    QuotientAtMost(1.0, y, c);
  }

  lemma QuotientAtLeast(q: real, y: real, c: real)
    requires 0.0 < c && q * c <= y
    ensures q <= y / c
  {
    assert q == (q * c) / c;
  }

  lemma QuotientAtMost(q: real, y: real, c: real)
    requires 0.0 < c && y <= q * c
    ensures y / c <= q
  {
    assert q == (q * c) / c;
  }
}
