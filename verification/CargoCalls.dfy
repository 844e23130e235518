/** What a step does to every record, said entry by entry: a reference for the functions of
    CargoEconomy that uses none of them. */
module CargoCalls {
  import opened Integers
  import opened CargoEconomy
  import opened CargoInvariants
  import opened CargoReset
  import opened CargoSteps

  /** Nothing is left in a row of the stock. */
  predicate IsEmpty(row: seq<nat>) {
    forall g :: 0 <= g < |row| ==> row[g] == 0
  }

  predicate Carries(r: Row, goal: int, weight: nat) {
    && r.goal == goal
    && |r.bits| == |r.entityBits| == NUM_WAREHOUSES
    && (forall w :: 0 <= w < NUM_WAREHOUSES ==> r.bits[w] == (if w == goal then weight else 0))
    && (forall w :: 0 <= w < NUM_WAREHOUSES ==> r.entityBits[w] == (if w == goal then weight else 0))
  }

  /** The target has taken goods for goal from the stock of warehouse w: as much as it can
      carry of what was there, priced by weight. */
  predicate Loads(cfg: Config, before: seq<seq<nat>>, after: seq<seq<nat>>, r: Row, r': Row, w: nat, goal: nat)
    requires ShapedStock(before) && ShapedStock(after) && w < NUM_WAREHOUSES && goal < NUM_WAREHOUSES
  {
    var there := before[w][goal];
    var weight := if r.capacity <= there then r.capacity else there;
    && 0 < there
    && Carries(r', goal, weight)
    && r'.freight == weight * cfg.freightScale && r'.bounty == weight * cfg.bountyScale
    && forall i, j :: 0 <= i < NUM_WAREHOUSES && 0 <= j < NUM_WAREHOUSES ==> after[i][j] == before[i][j] - (if i == w && j == goal then weight else 0)
  }

  /** The warehouses where a target may trade: its goal, or any if it is not loaded. */
  predicate TradesAt(r: Row, inside: seq<bool>, w: nat) {
    w < |inside| && inside[w] && (r.goal < 0 || r.goal == w)
  }

  predicate SameStock(before: seq<seq<nat>>, after: seq<seq<nat>>)
    requires ShapedStock(before) && ShapedStock(after)
  {
    forall i, j :: 0 <= i < NUM_WAREHOUSES && 0 <= j < NUM_WAREHOUSES ==> after[i][j] == before[i][j]
  }

  /** The first warehouse of all where the target may trade that has something in stock. */
  predicate FirstOpen(s: State, r: Row, inside: seq<bool>, w: nat)
    requires ShapedStock(s.remaining)
  {
    && w < NUM_WAREHOUSES && TradesAt(r, inside, w) && !IsEmpty(s.remaining[w])
    && forall v :: 0 <= v < w && TradesAt(r, inside, v) ==> IsEmpty(s.remaining[v])
  }

  /** What one turn does to the load of the target and to the stock. */
  ghost predicate TurnLoad(cfg: Config, s: State, s': State, t: nat, inside: seq<bool>)
    requires Shaped(cfg, s) && Shaped(cfg, s') && t < cfg.numTargets
  {
    var r, r' := s.rows[t], s'.rows[t];
    if forall w :: !TradesAt(r, inside, w) then
      && r' == r.(empty := r'.empty)
      && SameStock(s.remaining, s'.remaining)
    else
      && r'.steps == 0 && r'.tracked == 0 && r'.capacity == r.capacity && r'.done == r.done
      && if exists w :: FirstOpen(s, r, inside, w) then
           exists w: nat, goal: nat :: FirstOpen(s, r, inside, w) && goal < NUM_WAREHOUSES && Loads(cfg, s.remaining, s'.remaining, r, r', w, goal)
         else
           Carries(r', -1, 0) && r'.freight == 0 && r'.bounty == 0 && SameStock(s.remaining, s'.remaining)
  }

  /** What one turn hands over: the load of a target that stands at its goal. */
  predicate TurnPayment(cfg: Config, o: Outcome, o': Outcome, t: nat, inside: seq<bool>)
    requires Shaped(cfg, o.state) && Shaped(cfg, o'.state) && t < cfg.numTargets && |inside| == NUM_WAREHOUSES
  {
    var s, s', r := o.state, o'.state, o.state.rows[t];
    var pays := 0 <= r.goal && inside[r.goal];
    var weight := if pays then r.bits[r.goal] else 0;
    && s'.delivered == s.delivered + weight
    && (forall w :: 0 <= w < NUM_WAREHOUSES ==> s'.awaiting[w] == s.awaiting[w] - (if w == r.goal then weight else 0))
    && o'.dense == o.dense + (if pays then r.freight + r.bounty else 0)
    && o'.delayed == o.delayed + (if pays then r.freight + r.bounty - (weight * cfg.bountyScale - r.bounty) else 0)
    && s'.dense == s.dense && s'.delayed == s.delayed && s'.clock == s.clock
  }

  /** What a target knows after its turn: of the warehouses where it stands, the truth. */
  predicate TurnKnowledge(cfg: Config, s: State, s': State, t: nat, inside: seq<bool>)
    requires Shaped(cfg, s) && Shaped(cfg, s') && t < cfg.numTargets && |inside| == NUM_WAREHOUSES
  {
    forall w :: 0 <= w < NUM_WAREHOUSES ==>
      (s'.rows[t].empty[w] <==> if inside[w] then IsEmpty(s'.remaining[w]) else s.rows[t].empty[w])
  }

  /** One turn of target t, which touches no other target. */
  ghost predicate Turn(cfg: Config, o: Outcome, o': Outcome, t: nat, inside: seq<bool>)
    requires Shaped(cfg, o.state) && Shaped(cfg, o'.state) && t < cfg.numTargets && |inside| == NUM_WAREHOUSES
  {
    && TurnLoad(cfg, o.state, o'.state, t, inside)
    && TurnPayment(cfg, o, o', t, inside)
    && TurnKnowledge(cfg, o.state, o'.state, t, inside)
    && forall i :: 0 <= i < cfg.numTargets && i != t ==> o'.state.rows[i] == o.state.rows[i]
  }

  // ------------------------------------------------------------- serving is a turn

  lemma StockedIsNotEmpty(row: seq<nat>)
    ensures Stocked(row) <==> !IsEmpty(row)
  {
  }

  /** A load is taken as described, from any row that carries nothing. */
  lemma TakeLoadLoads(cfg: Config, s: State, t: nat, w: nat, raw: nat) returns (goal: nat)
    requires Shaped(cfg, s) && t < cfg.numTargets && w < NUM_WAREHOUSES && Stocked(s.remaining[w])
    requires s.rows[t].bits == Zeros() && s.rows[t].entityBits == Zeros()
    ensures goal < NUM_WAREHOUSES
    ensures var s' := TakeLoad(cfg, s, t, w, raw);
      && Loads(cfg, s.remaining, s'.remaining, s.rows[t], s'.rows[t], w, goal)
      && s' == s.(remaining := s'.remaining, rows := s'.rows)
      && s'.rows[t] == s.rows[t].(goal := s'.rows[t].goal, bits := s'.rows[t].bits, entityBits := s'.rows[t].entityBits, freight := s'.rows[t].freight, bounty := s'.rows[t].bounty)
      && forall i :: 0 <= i < cfg.numTargets && i != t ==> s'.rows[i] == s.rows[i]
  {
    goal := Choice(s.remaining[w], raw);
  }

  /** The first stocked warehouse of those where a target stands. */
  lemma FirstStockedIsFirstOpen(s: State, r: Row, inside: seq<bool>)
    requires ShapedStock(s.remaining) && |inside| == NUM_WAREHOUSES && r.goal < 0
    ensures var w := FirstStocked(FlatNonzero(inside), s.remaining);
      && (w < NUM_WAREHOUSES ==> FirstOpen(s, r, inside, w))
      && (w == NUM_WAREHOUSES ==> forall v :: !FirstOpen(s, r, inside, v))
  {
    hide Stocked, IsEmpty, FlatNonzero, FirstStocked;
    forall v | 0 <= v < NUM_WAREHOUSES
      ensures Stocked(s.remaining[v]) <==> !IsEmpty(s.remaining[v])
    {
      StockedIsNotEmpty(s.remaining[v]);
    }
    var stands := FlatNonzero(inside);
    var w := FirstStocked(stands, s.remaining);
    if w < NUM_WAREHOUSES {
      var k := FirstStockedIsFirst(stands, s.remaining);
      forall v | 0 <= v < w && TradesAt(r, inside, v)
        ensures IsEmpty(s.remaining[v])
      {
        assert v in stands;
        var i :| 0 <= i < |stands| && stands[i] == v;
        assert i < k;
      }
    } else {
      forall v: nat
        ensures !FirstOpen(s, r, inside, v)
      {
        if v < NUM_WAREHOUSES && inside[v] {
          assert v in stands;
        }
      }
    }
  }

  /** A loaded target may trade at its goal only, which is open if it has stock. */
  lemma GoalIsFirstOpen(s: State, r: Row, inside: seq<bool>)
    requires ShapedStock(s.remaining) && |inside| == NUM_WAREHOUSES && 0 <= r.goal < NUM_WAREHOUSES && inside[r.goal]
    ensures Stocked(s.remaining[r.goal]) ==> FirstOpen(s, r, inside, r.goal)
    ensures !Stocked(s.remaining[r.goal]) ==> forall v :: !FirstOpen(s, r, inside, v)
  {
    hide Stocked, IsEmpty;
    StockedIsNotEmpty(s.remaining[r.goal]);
  }

  lemma TradeLoadsOrClears(cfg: Config, s: State, s': State, t: nat, inside: seq<bool>, cleared: State, w: nat, raw: nat)
    requires Shaped(cfg, s) && Shaped(cfg, cleared) && t < cfg.numTargets && |inside| == NUM_WAREHOUSES
    requires cleared.remaining == s.remaining && cleared.rows == s.rows[t := ClearedRow(s.rows[t])]
    requires exists v :: TradesAt(s.rows[t], inside, v)
    requires w < NUM_WAREHOUSES ==> FirstOpen(s, s.rows[t], inside, w)
    requires w == NUM_WAREHOUSES ==> forall v :: !FirstOpen(s, s.rows[t], inside, v)
    requires w <= NUM_WAREHOUSES && (w < NUM_WAREHOUSES ==> Stocked(cleared.remaining[w]))
    requires s' == if w < NUM_WAREHOUSES then TakeLoad(cfg, cleared, t, w, raw) else cleared
    ensures Shaped(cfg, s') && TurnLoad(cfg, s, s', t, inside)
    ensures s' == cleared.(remaining := s'.remaining, rows := s'.rows) && s'.rows[t].empty == s.rows[t].empty
    ensures forall i :: 0 <= i < cfg.numTargets && i != t ==> s'.rows[i] == s.rows[i]
  {
    hide FirstOpen, TakeLoad, Stocked, TradesAt, Loads;
    if w < NUM_WAREHOUSES {
      var goal := TakeLoadLoads(cfg, cleared, t, w, raw);
      LoadsByCapacity(cfg, s.remaining, s'.remaining, cleared.rows[t], s.rows[t], s'.rows[t], w, goal);
    }
  }

  lemma LoadsByCapacity(cfg: Config, before: seq<seq<nat>>, after: seq<seq<nat>>, q: Row, r: Row, r': Row, w: nat, goal: nat)
    requires ShapedStock(before) && ShapedStock(after) && w < NUM_WAREHOUSES && goal < NUM_WAREHOUSES && q.capacity == r.capacity
    ensures Loads(cfg, before, after, q, r', w, goal) ==> Loads(cfg, before, after, r, r', w, goal)
  {
  }

  /** Trading does to load, stock and accounts what a turn does. */
  lemma TradeIsTurn(cfg: Config, o: Outcome, t: nat, inside: seq<bool>, draw: (nat, nat) -> nat)
    requires Shaped(cfg, o.state) && t < cfg.numTargets && |inside| == NUM_WAREHOUSES
    ensures var o' := Trade(cfg, o, t, inside, draw);
      && TurnLoad(cfg, o.state, o'.state, t, inside) && TurnPayment(cfg, o, o', t, inside)
      && o'.state.rows[t].empty == o.state.rows[t].empty
      && forall i :: 0 <= i < cfg.numTargets && i != t ==> o'.state.rows[i] == o.state.rows[i]
  {
    hide FirstOpen, TakeLoad, Stocked, TurnLoad, FlatNonzero, FirstStocked;
    var s, o' := o.state, Trade(cfg, o, t, inside, draw);
    var r := s.rows[t];
    assert ShapedRow(r);
    if 0 <= r.goal {
      if inside[r.goal] {
        assert TradesAt(r, inside, r.goal);
        GoalIsFirstOpen(s, r, inside);
        var cleared := Clear(Deliver(cfg, o, t).state, t);
        TradeLoadsOrClears(cfg, s, o'.state, t, inside, cleared, if Stocked(cleared.remaining[r.goal]) then r.goal else NUM_WAREHOUSES, draw(t, r.goal));
      } else {
        NoTrade(cfg, s, t, inside);
      }
    } else if FlatNonzero(inside) == [] {
      NoTrade(cfg, s, t, inside);
    } else {
      assert TradesAt(r, inside, FlatNonzero(inside)[0]);
      FirstStockedIsFirstOpen(s, r, inside);
      var cleared := Clear(s, t);
      var w := FirstStocked(FlatNonzero(inside), cleared.remaining);
      TradeLoadsOrClears(cfg, s, o'.state, t, inside, cleared, w, draw(t, w));
    }
  }

  lemma NoTrade(cfg: Config, s: State, t: nat, inside: seq<bool>)
    requires Shaped(cfg, s) && t < cfg.numTargets && |inside| == NUM_WAREHOUSES
    requires if 0 <= s.rows[t].goal < NUM_WAREHOUSES then !inside[s.rows[t].goal] else FlatNonzero(inside) == []
    ensures TurnLoad(cfg, s, s, t, inside)
  {
    assert forall w :: 0 <= w < NUM_WAREHOUSES && inside[w] ==> w in FlatNonzero(inside);
    assert s.rows[t] == s.rows[t].(empty := s.rows[t].empty);
  }

  lemma LookKeepsTurn(cfg: Config, s: State, s': State, t: nat, inside: seq<bool>, after: State)
    requires Shaped(cfg, s) && Shaped(cfg, s') && t < cfg.numTargets && |inside| == NUM_WAREHOUSES
    requires TurnLoad(cfg, s, s', t, inside) && after == Look(cfg, s', t, inside)
    ensures TurnLoad(cfg, s, after, t, inside)
  {
    hide IsEmpty, Stocked, TradesAt, Loads, SameStock;
    var r, r', r'' := s.rows[t], s'.rows[t], after.rows[t];
    assert r'' == r'.(empty := r''.empty);
    if (exists w :: TradesAt(r, inside, w)) && exists w :: FirstOpen(s, r, inside, w) {
      var w: nat, goal: nat :| FirstOpen(s, r, inside, w) && goal < NUM_WAREHOUSES && Loads(cfg, s.remaining, s'.remaining, r, r', w, goal);
      LoadsIgnoresKnowledge(cfg, s.remaining, s'.remaining, r, r', r'', w, goal);
    }
  }

  lemma LoadsIgnoresKnowledge(cfg: Config, before: seq<seq<nat>>, after: seq<seq<nat>>, r: Row, r': Row, r'': Row, w: nat, goal: nat)
    requires ShapedStock(before) && ShapedStock(after) && w < NUM_WAREHOUSES && goal < NUM_WAREHOUSES && r'' == r'.(empty := r''.empty)
    ensures Loads(cfg, before, after, r, r', w, goal) ==> Loads(cfg, before, after, r, r'', w, goal)
  {
  }

  lemma LookTeaches(cfg: Config, s: State, t: nat, inside: seq<bool>, before: State)
    requires Shaped(cfg, s) && Shaped(cfg, before) && t < cfg.numTargets && |inside| == NUM_WAREHOUSES
    requires s.rows[t].empty == before.rows[t].empty
    ensures TurnKnowledge(cfg, before, Look(cfg, s, t, inside), t, inside)
  {
    hide Stocked, IsEmpty;
    forall w | 0 <= w < NUM_WAREHOUSES
      ensures Stocked(s.remaining[w]) <==> !IsEmpty(s.remaining[w])
    {
      StockedIsNotEmpty(s.remaining[w]);
    }
  }

  /** Serving a target is one turn. */
  lemma ServeIsTurn(cfg: Config, o: Outcome, t: nat, inside: seq<bool>, draw: (nat, nat) -> nat)
    requires Shaped(cfg, o.state) && t < cfg.numTargets && |inside| == NUM_WAREHOUSES
    ensures Turn(cfg, o, Serve(cfg, o, t, inside, draw), t, inside)
  {
    hide Trade, TurnLoad, TurnKnowledge;
    var traded := Trade(cfg, o, t, inside, draw);
    TradeIsTurn(cfg, o, t, inside, draw);
    LookKeepsTurn(cfg, o.state, traded.state, t, inside, Look(cfg, traded.state, t, inside));
    LookTeaches(cfg, traded.state, t, inside, o.state);
  }

  // ---------------------------------------------------------------------- whole calls

  /** The tracked targets that still carry a bounty. */
  function Charged(rows: seq<Row>, tracked: seq<bool>): set<nat>
    requires |rows| == |tracked|
  {
    set t: nat | t < |rows| && tracked[t] && 0 < rows[t].bounty
  }

  /** How a call opens: every tracked target loses one unit of bounty, down to zero, and the
      dense reward is charged one for each that had any. */
  predicate Opens(cfg: Config, s: State, tracked: seq<bool>, o: Outcome)
    requires Shaped(cfg, s) && Shaped(cfg, o.state) && |tracked| == cfg.numTargets
  {
    && (forall t :: 0 <= t < cfg.numTargets ==>
          o.state.rows[t] == s.rows[t].(bounty := Max(0, s.rows[t].bounty - if tracked[t] then 1 else 0)))
    && o.state == s.(rows := o.state.rows)
    && o.dense == -|Charged(s.rows, tracked)| && o.delayed == 0
  }

  /** The n-th turn of a trace. */
  ghost predicate TurnAt(cfg: Config, input: Input, trace: seq<Outcome>, n: nat)
    requires ShapedInput(cfg, input) && |trace| == cfg.numTargets + 1 && n < cfg.numTargets
  {
    && Shaped(cfg, trace[n].state) && Shaped(cfg, trace[n + 1].state)
    && Turn(cfg, trace[n], trace[n + 1], n, input.inside[n])
  }

  /** The targets that stood at their goal before the call are marked. */
  predicate Marks(cfg: Config, s: State, input: Input, before: State, after: State)
    requires Shaped(cfg, s) && ShapedInput(cfg, input) && Shaped(cfg, before)
  {
    && |after.rows| == cfg.numTargets && after == before.(rows := after.rows)
    && forall t :: 0 <= t < cfg.numTargets ==>
         after.rows[t] == before.rows[t].(done := 0 <= s.rows[t].goal && input.inside[t][s.rows[t].goal])
  }

  /** A goal assignment: it opens, serves the targets one after the other, and marks those
      that stood at their goal when it began. */
  ghost predicate Call(cfg: Config, s: State, input: Input, o: Outcome, trace: seq<Outcome>)
    requires Shaped(cfg, s) && ShapedInput(cfg, input)
  {
    && |trace| == cfg.numTargets + 1
    && Shaped(cfg, trace[0].state) && Opens(cfg, s, input.tracked, trace[0])
    && (forall n :: 0 <= n < cfg.numTargets ==> TurnAt(cfg, input, trace, n))
    && var last := trace[cfg.numTargets];
       Shaped(cfg, last.state) && o == last.(state := o.state) && Marks(cfg, s, input, last.state, o.state)
  }

  /** A step: a goal assignment whose rewards are added to the totals, with all counters one
      up. */
  ghost predicate IsStep(cfg: Config, s: State, input: Input, s': State, o: Outcome, trace: seq<Outcome>)
    requires Shaped(cfg, s) && ShapedInput(cfg, input)
  {
    Call(cfg, s, input, o, trace) && Counts(cfg, s, input, o, s')
  }

  predicate Counts(cfg: Config, s: State, input: Input, o: Outcome, s': State)
    requires ShapedInput(cfg, input)
  {
    && |s'.rows| == |o.state.rows| == cfg.numTargets
    && s' == o.state.(rows := s'.rows, dense := s.dense + o.dense, delayed := s.delayed + o.delayed, clock := s.clock + 1)
    && forall t :: 0 <= t < cfg.numTargets ==>
         var r := o.state.rows[t];
         s'.rows[t] == r.(steps := r.steps + 1, tracked := r.tracked + if input.tracked[t] then 1 else 0)
  }

  lemma {:induction false} PayingIsCount(rows: seq<Row>, tracked: seq<bool>)
    requires |rows| == |tracked|
    ensures Paying(rows, tracked) == |Charged(rows, tracked)|
  {
    hide Paying;
    if rows == [] {
      NobodyPays(tracked);
    } else {
      var n := |rows| - 1;
      var before := Charged(rows[..n], tracked[..n]);
      PayingLast(rows, tracked);
      PayingIsCount(rows[..n], tracked[..n]);
      assert n !in before;
      assert Charged(rows, tracked) == if tracked[n] && 0 < rows[n].bounty then before + {n} else before;
    }
  }

  lemma NobodyPays(tracked: seq<bool>)
    requires tracked == []
    ensures Paying([], tracked) == 0 && Charged([], tracked) == {}
  {
  }

  lemma OpenedOpens(cfg: Config, s: State, tracked: seq<bool>)
    requires Shaped(cfg, s) && |tracked| == cfg.numTargets
    ensures Shaped(cfg, Opened(s, tracked).state) && Opens(cfg, s, tracked, Opened(s, tracked))
  {
    hide Paying, Charged;
    PayingIsCount(s.rows, tracked);
  }

  ghost function Served(cfg: Config, o: Outcome, input: Input): (trace: seq<Outcome>)
    requires Shaped(cfg, o.state) && ShapedInput(cfg, input)
    ensures |trace| == cfg.numTargets + 1
  {
    seq(cfg.numTargets + 1, n requires 0 <= n <= cfg.numTargets => ServeFirst(cfg, o, n, input))
  }

  /** Each target has its turn on what the targets before it left. */
  lemma ServedInTurn(cfg: Config, o: Outcome, input: Input, n: nat)
    requires Shaped(cfg, o.state) && ShapedInput(cfg, input) && n < cfg.numTargets
    ensures TurnAt(cfg, input, Served(cfg, o, input), n)
  {
    hide Serve, Turn;
    ServeIsTurn(cfg, ServeFirst(cfg, o, n, input), n, input.inside[n], input.draw);
  }

  lemma ServedEnds(cfg: Config, o: Outcome, input: Input)
    requires Shaped(cfg, o.state) && ShapedInput(cfg, input)
    ensures Served(cfg, o, input)[0] == o
    ensures Served(cfg, o, input)[cfg.numTargets] == ServeFirst(cfg, o, cfg.numTargets, input)
  {
    hide Serve;
  }

  lemma AssignGoalsIsCall(cfg: Config, s: State, input: Input, total: int) returns (trace: seq<Outcome>)
    requires ValidConfig(cfg) && Invariant(cfg, s, total) && ShapedInput(cfg, input)
    ensures Call(cfg, s, input, AssignGoals(cfg, s, input), trace)
  {
    ShapedState(cfg, s, total);
    hide AssignGoals, Turn, TurnAt, Opened, Opens, Invariant, Shaped, ShapedInput, Served, Marks;
    var start := Opened(s, input.tracked);
    InputFits(cfg, s, input);
    OpenedOpens(cfg, s, input.tracked);
    trace := Served(cfg, start, input);
    ServedEnds(cfg, start, input);
    forall n | 0 <= n < cfg.numTargets
      ensures TurnAt(cfg, input, trace, n)
    {
      ServedInTurn(cfg, start, input, n);
    }
    CallMarks(cfg, s, input, total);
  }

  lemma ShapedState(cfg: Config, s: State, total: int)
    requires Invariant(cfg, s, total)
    ensures Shaped(cfg, s)
  {
  }

  lemma InputFits(cfg: Config, s: State, input: Input)
    requires Shaped(cfg, s) && ShapedInput(cfg, input)
    ensures |input.tracked| == |s.rows| == cfg.numTargets
  {
  }

  lemma CallMarks(cfg: Config, s: State, input: Input, total: int)
    requires ValidConfig(cfg) && Invariant(cfg, s, total) && ShapedInput(cfg, input)
    ensures Shaped(cfg, s) && |input.tracked| == |s.rows| && Shaped(cfg, Opened(s, input.tracked).state)
    ensures var o, last := AssignGoals(cfg, s, input), ServeFirst(cfg, Opened(s, input.tracked), cfg.numTargets, input);
      Shaped(cfg, last.state) && o == last.(state := o.state) && Marks(cfg, s, input, last.state, o.state)
  {
    ShapedState(cfg, s, total);
    hide ServeFirst, Invariant;
    var o := AssignGoals(cfg, s, input);
    forall t | 0 <= t < cfg.numTargets
      ensures o.state.rows[t].done == (0 <= s.rows[t].goal && input.inside[t][s.rows[t].goal])
    {
      FlagOfCall(cfg, s, input, total, t);
    }
  }

  lemma FlagOfCall(cfg: Config, s: State, input: Input, total: int, t: nat)
    requires ValidConfig(cfg) && Invariant(cfg, s, total) && ShapedInput(cfg, input) && t < cfg.numTargets
    ensures -1 <= s.rows[t].goal < NUM_WAREHOUSES
    ensures AssignGoals(cfg, s, input).state.rows[t].done == (0 <= s.rows[t].goal && input.inside[t][s.rows[t].goal])
  {
    hide AssignGoals;
    assert ShapedRow(s.rows[t]);
    DoneFlagIsExact(cfg, s, input, total, t);
  }

  lemma StepCounts(cfg: Config, s: State, input: Input)
    requires Shaped(cfg, s) && ShapedInput(cfg, input)
    ensures Counts(cfg, s, input, AssignGoals(cfg, s, input), Step(cfg, s, input))
  {
    hide AssignGoals;
  }

  /** Every step is what the reference says. */
  lemma StepIsStep(cfg: Config, s: State, input: Input, total: int) returns (o: Outcome, trace: seq<Outcome>)
    requires ValidConfig(cfg) && Invariant(cfg, s, total) && ShapedInput(cfg, input)
    ensures Shaped(cfg, s) && IsStep(cfg, s, input, Step(cfg, s, input), o, trace)
  {
    ShapedState(cfg, s, total);
    hide AssignGoals, Step, Call, Counts, Invariant, Shaped, ShapedInput;
    o := AssignGoals(cfg, s, input);
    trace := AssignGoalsIsCall(cfg, s, input, total);
    StepCounts(cfg, s, input);
  }
}
