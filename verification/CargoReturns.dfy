/** What an episode can earn: the full price if nobody is tracked, and never more than the
    price of all cargo. */
module CargoReturns {
  import opened Sums
  import opened CargoEconomy
  import opened CargoInvariants
  import opened CargoReset
  import opened CargoSteps
  import opened CargoRuns

  // ------------------------------------------------- untracked episodes pay in full

  lemma {:induction false} SumScale(a: seq<int>, b: seq<int>, k: int)
    requires |a| == |b| && forall i :: 0 <= i < |a| ==> b[i] == a[i] * k
    ensures Sum(b) == Sum(a) * k
  {
    if a != [] {
      SumScale(a[1..], b[1..], k);
      Distribute(a[0], Sum(a[1..]), k);
    }
  }

  predicate Untracked(input: Input) {
    forall t :: 0 <= t < |input.tracked| ==> !input.tracked[t]
  }

  /** While nobody is tracked no counter moves. */
  lemma UntrackedStepCounts(cfg: Config, s: State, input: Input)
    requires Shaped(cfg, s) && ShapedInput(cfg, input) && NoCounts(s) && Untracked(input)
    ensures NoCounts(Step(cfg, s, input))
  {
    hide ServeFirst;
    ServeCounts(cfg, Opened(s, input.tracked), cfg.numTargets, input);
  }

  /** An uncounted load still has its full bounty. */
  lemma FullBounty(cfg: Config, s: State, total: int, t: nat)
    requires ValidConfig(cfg) && Invariant(cfg, s, total) && NoCounts(s) && t < cfg.numTargets
    ensures 0 <= s.rows[t].goal ==> s.rows[t].bounty == Weight(s.rows[t]) * cfg.bountyScale
    ensures Debt(cfg, s.rows[t]) == 0
  {
    RowIsSound(cfg, s, total, t);
  }

  lemma UntrackedLeftOver(cfg: Config, s: State, input: Input, total: int)
    requires ValidConfig(cfg) && Invariant(cfg, s, total) && NoCounts(s) && ShapedInput(cfg, input) && Untracked(input)
    ensures StepLeftOver(s, input) == StepHanded(s, input) * cfg.bountyScale
  {
    var handed, left := HandedAll(s.rows, input.inside), LeftOverAll(Decay(s, input.tracked).rows, input.inside);
    forall t | 0 <= t < cfg.numTargets
      ensures left[t] == handed[t] * cfg.bountyScale
    {
      FullBounty(cfg, s, total, t);
      RowIsSound(cfg, s, total, t);
    }
    SumScale(handed, left, cfg.bountyScale);
  }

  /** Nobody has been counted as tracked, and every delivered unit was paid in full. */
  ghost predicate PaidInFull(cfg: Config, s: State) {
    NoCounts(s) && s.delayed == s.delivered * (cfg.freightScale + cfg.bountyScale)
  }

  lemma UntrackedStepPays(cfg: Config, s: State, input: Input, total: int)
    requires ValidConfig(cfg) && Invariant(cfg, s, total) && ShapedInput(cfg, input) && Untracked(input)
    requires PaidInFull(cfg, s)
    ensures PaidInFull(cfg, Step(cfg, s, input))
  {
    hide Step;
    UntrackedStepCounts(cfg, s, input);
    StepPays(cfg, s, input, total);
    UntrackedLeftOver(cfg, s, input, total);
    FullPrice(StepHanded(s, input), cfg.freightScale, cfg.bountyScale);
    Distribute(s.delivered, StepHanded(s, input), cfg.freightScale + cfg.bountyScale);
  }

  lemma FullPrice(h: int, f: int, b: int)
    ensures h * (f - b) + 2 * (h * b) == h * (f + b)
  {
  }

  lemma {:induction false} UntrackedRun(cfg: Config, s: State, inputs: seq<Input>, total: int)
    requires ValidConfig(cfg) && Invariant(cfg, s, total) && PaidInFull(cfg, s)
    requires forall k :: 0 <= k < |inputs| ==> ShapedInput(cfg, inputs[k]) && Untracked(inputs[k])
    ensures PaidInFull(cfg, Run(cfg, s, inputs))
  {
    hide Step;
    if inputs != [] {
      var n := |inputs| - 1;
      UntrackedRun(cfg, s, inputs[..n], total);
      RunKeeps(cfg, s, inputs[..n], total);
      UntrackedStepPays(cfg, Run(cfg, s, inputs[..n]), inputs[n], total);
    }
  }

  /** As long as no camera sees any target, both returns equal the full price of what
      has been delivered. */
  lemma UntrackedEpisodePaysInFull(cfg: Config, reset: ResetInput, inputs: seq<Input>)
    requires ValidEpisode(cfg, reset, inputs)
    requires forall k :: 0 <= k < |inputs| ==> Untracked(inputs[k])
    ensures var s := After(cfg, reset, inputs);
      s.dense == s.delayed == s.delivered * (cfg.freightScale + cfg.bountyScale)
  {
    hide Initial, Run;
    var total := InitialCargo(cfg, reset);
    ResetIsSound(cfg, reset);
    UntrackedRun(cfg, Initial(cfg, reset), inputs, total);
    EpisodeInvariant(cfg, reset, inputs);
    DebtFree(cfg, After(cfg, reset, inputs), total);
  }

  lemma DebtFree(cfg: Config, s: State, total: int)
    requires ValidConfig(cfg) && Invariant(cfg, s, total) && NoCounts(s)
    ensures s.dense == s.delayed
  {
    forall t | 0 <= t < cfg.numTargets
      ensures Debts(cfg, s.rows)[t] == 0
    {
      FullBounty(cfg, s, total, t);
    }
    SumOfZeros(Debts(cfg, s.rows));
  }

  // ------------------------------------------------------------ the nominal maximum

  /** The number every normalized reward is divided by. */
  function NominalMaximum(cfg: Config): int {
    (cfg.freightScale + cfg.bountyScale) * (cfg.cargoesPerTarget * cfg.numTargets)
  }

  /** No episode earns more than the nominal maximum times the rounds of the fill loop. */
  lemma ReturnIsBounded(cfg: Config, reset: ResetInput, inputs: seq<Input>)
    requires ValidEpisode(cfg, reset, inputs)
    ensures var s := After(cfg, reset, inputs);
      s.dense <= s.delayed <= |reset.rounds| * NominalMaximum(cfg)
  {
    hide After;
    var s := After(cfg, reset, inputs);
    RewardsTelescope(cfg, reset, inputs);
    DeliveriesAreFair(cfg, reset, inputs);
    CargoIsConserved(cfg, reset, inputs);
    PriceOfAll(s.delivered, |reset.rounds|, cfg.cargoesPerTarget * cfg.numTargets, cfg.freightScale + cfg.bountyScale);
  }

  lemma PriceOfAll(delivered: int, rounds: int, perRound: int, price: int)
    requires 0 <= price && delivered <= rounds * perRound
    ensures delivered * price <= rounds * (price * perRound)
    ensures (rounds * perRound) * price == rounds * (price * perRound)
  {
    assert (rounds * perRound) * price == rounds * (price * perRound);
    assert delivered * price <= (rounds * perRound) * price;
  }
}
