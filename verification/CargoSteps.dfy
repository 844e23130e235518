/** What one step pays, delivers and reveals, in closed form. */
module CargoSteps {
  import opened Sums
  import opened CargoEconomy
  import opened CargoInvariants
  import opened CargoReset

  /** A loaded target that stands at its goal. */
  predicate AtGoal(r: Row, inside: seq<bool>) {
    0 <= r.goal < |inside| && inside[r.goal]
  }

  /** The weight a target hands over, and the bounty still on it when it does. */
  function Handed(r: Row, inside: seq<bool>): int {
    if AtGoal(r, inside) then Weight(r) else 0
  }

  function LeftOver(r: Row, inside: seq<bool>): int {
    if AtGoal(r, inside) then r.bounty else 0
  }

  function HandedAll(rows: seq<Row>, inside: seq<seq<bool>>): seq<int>
    requires |rows| == |inside|
  {
    seq(|rows|, t requires 0 <= t < |rows| => Handed(rows[t], inside[t]))
  }

  function LeftOverAll(rows: seq<Row>, inside: seq<seq<bool>>): seq<int>
    requires |rows| == |inside|
  {
    seq(|rows|, t requires 0 <= t < |rows| => LeftOver(rows[t], inside[t]))
  }

  /** What serving one target does to the accounts. */
  lemma ServePays(cfg: Config, o: Outcome, t: nat, inside: seq<bool>, draw: (nat, nat) -> nat)
    requires Shaped(cfg, o.state) && t < cfg.numTargets && |inside| == NUM_WAREHOUSES
    requires Agree(cfg, o.state.rows[t])
    ensures var o' := Serve(cfg, o, t, inside, draw);
      var r := o.state.rows[t];
      && o'.state.delivered == o.state.delivered + Handed(r, inside)
      && o'.dense == o.dense + Handed(r, inside) * cfg.freightScale + LeftOver(r, inside)
      && o'.delayed == o.delayed + Handed(r, inside) * (cfg.freightScale - cfg.bountyScale) + 2 * LeftOver(r, inside)
  {
    var r := o.state.rows[t];
    if AtGoal(r, inside) {
      assert Handed(r, inside) * (cfg.freightScale - cfg.bountyScale)
          == Handed(r, inside) * cfg.freightScale - Handed(r, inside) * cfg.bountyScale;
    }
  }

  /** A loaded target changes its goal exactly when it delivers: the warehouse it
      delivered to stores nothing for itself, so a reload never repeats the old goal. */
  lemma ServeMovesOn(cfg: Config, o: Outcome, t: nat, inside: seq<bool>, draw: (nat, nat) -> nat)
    requires Shaped(cfg, o.state) && t < cfg.numTargets && |inside| == NUM_WAREHOUSES
    requires NoSelfCargo(o.state.remaining) && 0 <= o.state.rows[t].goal
    ensures Serve(cfg, o, t, inside, draw).state.rows[t].goal != o.state.rows[t].goal
      <==> AtGoal(o.state.rows[t], inside)
  {
  }

  /** Serving one target touches no other row. */
  lemma ServeOthers(cfg: Config, o: Outcome, t: nat, inside: seq<bool>, draw: (nat, nat) -> nat, i: nat)
    requires Shaped(cfg, o.state) && t < cfg.numTargets && |inside| == NUM_WAREHOUSES
    requires i < cfg.numTargets && i != t
    ensures Serve(cfg, o, t, inside, draw).state.rows[i] == o.state.rows[i]
  {
  }

  /** Serving takes cargo out of the stock and never puts any back. */
  lemma ServeShrinks(cfg: Config, o: Outcome, t: nat, inside: seq<bool>, draw: (nat, nat) -> nat)
    requires Shaped(cfg, o.state) && t < cfg.numTargets && |inside| == NUM_WAREHOUSES
    ensures var s, s' := o.state, Serve(cfg, o, t, inside, draw).state;
      forall i, j :: 0 <= i < NUM_WAREHOUSES && 0 <= j < NUM_WAREHOUSES ==> s'.remaining[i][j] <= s.remaining[i][j]
  {
  }

  /** The accounts after the first n targets. */
  ghost predicate PaidFor(cfg: Config, o: Outcome, o': Outcome, handed: int, left: int) {
    && o'.state.delivered == o.state.delivered + handed
    && o'.dense == o.dense + handed * cfg.freightScale + left
    && o'.delayed == o.delayed + handed * (cfg.freightScale - cfg.bountyScale) + 2 * left
  }

  lemma PaidTwice(cfg: Config, o: Outcome, mid: Outcome, o': Outcome, h1: int, l1: int, h2: int, l2: int)
    requires PaidFor(cfg, o, mid, h1, l1) && PaidFor(cfg, mid, o', h2, l2)
    ensures PaidFor(cfg, o, o', h1 + h2, l1 + l2)
  {
    Distribute(h1, h2, cfg.freightScale);
    Distribute(h1, h2, cfg.freightScale - cfg.bountyScale);
  }

  /** One turn, seen from the rows the call began with. */
  lemma TurnPays(cfg: Config, o: Outcome, before: Outcome, t: nat, input: Input)
    requires Shaped(cfg, o.state) && Shaped(cfg, before.state) && t < cfg.numTargets && ShapedInput(cfg, input)
    requires Agree(cfg, o.state.rows[t]) && before.state.rows[t] == o.state.rows[t]
    ensures PaidFor(cfg, before, Serve(cfg, before, t, input.inside[t], input.draw),
      HandedAll(o.state.rows, input.inside)[t], LeftOverAll(o.state.rows, input.inside)[t])
  {
    ServePays(cfg, before, t, input.inside[t], input.draw);
  }

  lemma {:induction false} ServeFirstPays(cfg: Config, o: Outcome, n: nat, input: Input, handed: seq<int>, left: seq<int>)
    requires Shaped(cfg, o.state) && n <= cfg.numTargets && ShapedInput(cfg, input)
    requires forall t :: 0 <= t < cfg.numTargets ==> Agree(cfg, o.state.rows[t])
    requires handed == HandedAll(o.state.rows, input.inside) && left == LeftOverAll(o.state.rows, input.inside)
    ensures PaidFor(cfg, o, ServeFirst(cfg, o, n, input), Sum(handed[..n]), Sum(left[..n]))
  {
    hide Serve;
    if n > 0 {
      ServeFirstPays(cfg, o, n - 1, input, handed, left);
      ServeFirstFrame(cfg, o, n - 1, input);
      var before := ServeFirst(cfg, o, n - 1, input);
      TurnPays(cfg, o, before, n - 1, input);
      PaidTwice(cfg, o, before, ServeFirst(cfg, o, n, input), Sum(handed[..n - 1]), Sum(left[..n - 1]), handed[n - 1], left[n - 1]);
      SumPrefix(handed, n);
      SumPrefix(left, n);
    }
  }

  lemma SumPrefix(s: seq<int>, n: nat)
    requires 0 < n <= |s|
    ensures Sum(s[..n]) == Sum(s[..n - 1]) + s[n - 1]
  {
    assert s[..n] == s[..n - 1] + [s[n - 1]];
    SumAppend(s[..n - 1], s[n - 1]);
  }

  lemma {:induction false} ServeFirstNoSelfCargo(cfg: Config, o: Outcome, n: nat, input: Input)
    requires Shaped(cfg, o.state) && n <= cfg.numTargets && ShapedInput(cfg, input) && NoSelfCargo(o.state.remaining)
    ensures NoSelfCargo(ServeFirst(cfg, o, n, input).state.remaining)
  {
    hide Serve;
    if n > 0 {
      ServeFirstNoSelfCargo(cfg, o, n - 1, input);
      ServeShrinks(cfg, ServeFirst(cfg, o, n - 1, input), n - 1, input.inside[n - 1], input.draw);
    }
  }

  /** A loaded target changes its goal in its own turn exactly when it stands at it. */
  lemma GoalMovesNow(cfg: Config, o: Outcome, input: Input, t: nat)
    requires Shaped(cfg, o.state) && ShapedInput(cfg, input) && NoSelfCargo(o.state.remaining)
    requires t < cfg.numTargets && 0 <= o.state.rows[t].goal
    ensures ServeFirst(cfg, o, t + 1, input).state.rows[t].goal != o.state.rows[t].goal
      <==> AtGoal(o.state.rows[t], input.inside[t])
  {
    var before := ServeFirst(cfg, o, t, input);
    ServeFirstNoSelfCargo(cfg, o, t, input);
    ServeFirstFrame(cfg, o, t, input);
    ServeMovesOn(cfg, before, t, input.inside[t], input.draw);
  }

  lemma {:induction false} GoalsMove(cfg: Config, o: Outcome, n: nat, input: Input, t: nat)
    requires Shaped(cfg, o.state) && ShapedInput(cfg, input) && NoSelfCargo(o.state.remaining)
    requires n <= cfg.numTargets && t < n && 0 <= o.state.rows[t].goal
    ensures ServeFirst(cfg, o, n, input).state.rows[t].goal != o.state.rows[t].goal
      <==> AtGoal(o.state.rows[t], input.inside[t])
  {
    hide Serve;
    if t == n - 1 {
      GoalMovesNow(cfg, o, input, t);
    } else {
      GoalsMove(cfg, o, n - 1, input, t);
      ServeOthers(cfg, ServeFirst(cfg, o, n - 1, input), n - 1, input.inside[n - 1], input.draw, t);
    }
  }

  lemma Distribute(a: int, b: int, k: int)
    ensures (a + b) * k == a * k + b * k
  {
  }

  /** The cargo handed over in one step, and the bounty left on it after this step's decay. */
  function StepHanded(s: State, input: Input): int
    requires |s.rows| == |input.inside|
  {
    Sum(HandedAll(s.rows, input.inside))
  }

  function StepLeftOver(s: State, input: Input): int
    requires |s.rows| == |input.inside| == |input.tracked|
  {
    Sum(LeftOverAll(Decay(s, input.tracked).rows, input.inside))
  }

  /** One step delivers exactly the loads of the targets standing at their goals.  The dense
      reward pays freight and remaining bounty and charges one for every tracked target that
      still had a bounty; the delayed reward charges all lost bounty upon delivery. */
  lemma StepPays(cfg: Config, s: State, input: Input, total: int)
    requires ValidConfig(cfg) && Invariant(cfg, s, total) && ShapedInput(cfg, input)
    ensures var s' := Step(cfg, s, input);
      var handed, left := StepHanded(s, input), StepLeftOver(s, input);
      && s'.delivered == s.delivered + handed
      && s'.dense == s.dense + handed * cfg.freightScale + left - Paying(s.rows, input.tracked)
      && s'.delayed == s.delayed + handed * (cfg.freightScale - cfg.bountyScale) + 2 * left
  {
    hide ServeFirst;
    DecayKeepsRows(cfg, s, input.tracked, total);
    var start := Opened(s, input.tracked);
    AssignGoalsOnlyPays(cfg, s, input);
    var handed, left := HandedAll(start.state.rows, input.inside), LeftOverAll(start.state.rows, input.inside);
    ServeFirstPays(cfg, start, cfg.numTargets, input, handed, left);
    assert handed[..cfg.numTargets] == handed && left[..cfg.numTargets] == left;
    assert handed == HandedAll(s.rows, input.inside);
  }

  /** The done flag of a target is set by a step exactly when it delivered in that step. */
  lemma DoneFlagIsExact(cfg: Config, s: State, input: Input, total: int, t: nat)
    requires ValidConfig(cfg) && Invariant(cfg, s, total) && ShapedInput(cfg, input) && t < cfg.numTargets
    ensures Step(cfg, s, input).rows[t].done <==> AtGoal(s.rows[t], input.inside[t])
  {
    hide ServeFirst;
    var start := Opened(s, input.tracked);
    assert start.state.rows[t].goal == s.rows[t].goal;
    if 0 <= s.rows[t].goal {
      GoalsMove(cfg, start, cfg.numTargets, input, t);
    }
  }

  /** A target that knows a warehouse is empty is not told otherwise in anyone's turn. */
  lemma ServeRemembers(cfg: Config, o: Outcome, turn: nat, inside: seq<bool>, draw: (nat, nat) -> nat, t: nat, w: nat)
    requires Shaped(cfg, o.state) && turn < cfg.numTargets && |inside| == NUM_WAREHOUSES
    requires t < cfg.numTargets && w < NUM_WAREHOUSES
    requires o.state.rows[t].empty[w] && !Stocked(o.state.remaining[w])
    ensures var s' := Serve(cfg, o, turn, inside, draw).state;
      s'.rows[t].empty[w] && !Stocked(s'.remaining[w])
  {
    ServeShrinks(cfg, o, turn, inside, draw);
    StockOnlyShrinks(o.state.remaining, Serve(cfg, o, turn, inside, draw).state.remaining);
  }

  lemma {:induction false} ServeFirstRemembers(cfg: Config, o: Outcome, n: nat, input: Input, t: nat, w: nat)
    requires Shaped(cfg, o.state) && n <= cfg.numTargets && ShapedInput(cfg, input)
    requires t < cfg.numTargets && w < NUM_WAREHOUSES
    requires o.state.rows[t].empty[w] && !Stocked(o.state.remaining[w])
    ensures var s' := ServeFirst(cfg, o, n, input).state;
      s'.rows[t].empty[w] && !Stocked(s'.remaining[w])
  {
    hide Serve;
    if n > 0 {
      ServeFirstRemembers(cfg, o, n - 1, input, t, w);
      ServeRemembers(cfg, ServeFirst(cfg, o, n - 1, input), n - 1, input.inside[n - 1], input.draw, t, w);
    }
  }

  lemma StepRemembers(cfg: Config, s: State, input: Input, t: nat, w: nat)
    requires Shaped(cfg, s) && ShapedInput(cfg, input) && t < cfg.numTargets && w < NUM_WAREHOUSES
    requires s.rows[t].empty[w] && !Stocked(s.remaining[w])
    ensures var s' := Step(cfg, s, input); s'.rows[t].empty[w] && !Stocked(s'.remaining[w])
  {
    ServeFirstRemembers(cfg, Opened(s, input.tracked), cfg.numTargets, input, t, w);
  }

  /** A target that stands in a warehouse sees at the end of its turn whether it is empty. */
  lemma ServeTeaches(cfg: Config, o: Outcome, t: nat, inside: seq<bool>, draw: (nat, nat) -> nat, w: nat)
    requires Shaped(cfg, o.state) && t < cfg.numTargets && |inside| == NUM_WAREHOUSES && w < NUM_WAREHOUSES
    ensures var s' := Serve(cfg, o, t, inside, draw).state;
      s'.rows[t].empty[w] <==> if inside[w] then !Stocked(s'.remaining[w]) else o.state.rows[t].empty[w]
  {
  }

  /** What target t knows of warehouse w after some turns, its own among them. */
  ghost predicate Learned(before: State, after: State, t: nat, w: nat, inside: bool)
    requires t < |before.rows| == |after.rows| && w < |before.rows[t].empty| == |after.rows[t].empty|
    requires w < |before.remaining| == |after.remaining|
  {
    if inside then
      (!Stocked(before.remaining[w]) ==> after.rows[t].empty[w]) && (after.rows[t].empty[w] ==> !Stocked(after.remaining[w]))
    else
      after.rows[t].empty[w] == before.rows[t].empty[w]
  }

  lemma ServeEmpties(cfg: Config, o: Outcome, t: nat, inside: seq<bool>, draw: (nat, nat) -> nat, w: nat)
    requires Shaped(cfg, o.state) && t < cfg.numTargets && |inside| == NUM_WAREHOUSES && w < NUM_WAREHOUSES
    ensures !Stocked(o.state.remaining[w]) ==> !Stocked(Serve(cfg, o, t, inside, draw).state.remaining[w])
  {
    hide Serve;
    ServeShrinks(cfg, o, t, inside, draw);
    StockOnlyShrinks(o.state.remaining, Serve(cfg, o, t, inside, draw).state.remaining);
  }

  lemma {:induction false} ServeFirstEmpties(cfg: Config, o: Outcome, n: nat, input: Input, w: nat)
    requires Shaped(cfg, o.state) && n <= cfg.numTargets && ShapedInput(cfg, input) && w < NUM_WAREHOUSES
    ensures !Stocked(o.state.remaining[w]) ==> !Stocked(ServeFirst(cfg, o, n, input).state.remaining[w])
  {
    hide Serve, Stocked;
    if n > 0 {
      ServeFirstEmpties(cfg, o, n - 1, input, w);
      ServeEmpties(cfg, ServeFirst(cfg, o, n - 1, input), n - 1, input.inside[n - 1], input.draw, w);
    }
  }

  lemma {:induction false} ServeFirstTeaches(cfg: Config, o: Outcome, n: nat, input: Input, t: nat, w: nat)
    requires Shaped(cfg, o.state) && t < n <= cfg.numTargets && ShapedInput(cfg, input) && w < NUM_WAREHOUSES
    ensures Learned(o.state, ServeFirst(cfg, o, n, input).state, t, w, input.inside[t][w])
  {
    hide Serve, Stocked;
    var before := ServeFirst(cfg, o, n - 1, input);
    ServeEmpties(cfg, before, n - 1, input.inside[n - 1], input.draw, w);
    if t == n - 1 {
      ServeFirstFrame(cfg, o, t, input);
      ServeFirstEmpties(cfg, o, t, input, w);
      ServeTeaches(cfg, before, t, input.inside[t], input.draw, w);
    } else {
      ServeFirstTeaches(cfg, o, n - 1, input, t, w);
      ServeOthers(cfg, before, n - 1, input.inside[n - 1], input.draw, t);
    }
  }

  /** In a step a target learns what there is to know about the warehouses where it stands,
      and nothing about the others: an empty one is noticed, and one that is believed empty
      is empty. */
  lemma StepTeaches(cfg: Config, s: State, input: Input, t: nat, w: nat)
    requires Shaped(cfg, s) && ShapedInput(cfg, input) && t < cfg.numTargets && w < NUM_WAREHOUSES
    ensures Learned(s, Step(cfg, s, input), t, w, input.inside[t][w])
  {
    hide ServeFirst, Stocked;
    ServeFirstTeaches(cfg, Opened(s, input.tracked), cfg.numTargets, input, t, w);
  }

  lemma StepEmpties(cfg: Config, s: State, input: Input, w: nat)
    requires Shaped(cfg, s) && ShapedInput(cfg, input) && w < NUM_WAREHOUSES
    ensures !Stocked(s.remaining[w]) ==> !Stocked(Step(cfg, s, input).remaining[w])
  {
    hide ServeFirst, Stocked;
    ServeFirstEmpties(cfg, Opened(s, input.tracked), cfg.numTargets, input, w);
  }
}
