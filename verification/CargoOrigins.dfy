/** Where the cargo of a new episode comes from: what the fill loop drew, what the first goal
    assignment hands out, and which cell of the stock each initial load was taken from. */
module CargoOrigins {
  import opened FiniteSets
  import opened Integers
  import opened Sums
  import opened CargoEconomy
  import opened CargoInvariants
  import opened CargoReset
  import opened CargoSteps
  import opened CargoRuns
  import opened CargoCalls

  // ------------------------------------------------------------------ the fill loop

  /** How often a pair of sender and recipient was drawn in some rounds. */
  function Drawn(rounds: seq<seq<(nat, nat)>>, pair: (nat, nat)): nat {
    if rounds == [] then 0 else multiset(rounds[0])[pair] + Drawn(rounds[1..], pair)
  }

  lemma {:induction false} DrawnLast(rounds: seq<seq<(nat, nat)>>, pair: (nat, nat))
    requires rounds != []
    ensures Drawn(rounds, pair) == Drawn(rounds[..|rounds| - 1], pair) + multiset(rounds[|rounds| - 1])[pair]
  {
    var n := |rounds| - 1;
    if n > 0 {
      DrawnLast(rounds[1..], pair);
      assert rounds[1..][..n - 1] == rounds[..n][1..];
    }
  }

  /** A round adds to each cell as often as its pair was drawn. */
  lemma {:induction false} StowCounts(remaining: seq<seq<nat>>, round: seq<(nat, nat)>, i: nat, j: nat)
    requires ShapedStock(remaining) && i < NUM_WAREHOUSES && j < NUM_WAREHOUSES
    requires forall p :: p in round ==> p.0 < NUM_WAREHOUSES && p.1 < NUM_WAREHOUSES
    ensures Stow(remaining, round)[i][j] == remaining[i][j] + multiset(round)[(i, j)]
  {
    if round != [] {
      var n := |round| - 1;
      StowCounts(remaining, round[..n], i, j);
      assert round == round[..n] + [round[n]];
      assert round[n] in round;
    }
  }

  /** What the fill loop leaves in a cell is how often its pair was drawn in all rounds. */
  lemma {:induction false} FilledCounts(cfg: Config, rounds: seq<seq<(nat, nat)>>, i: nat, j: nat)
    requires ValidRounds(cfg, rounds) && i < NUM_WAREHOUSES && j < NUM_WAREHOUSES
    ensures Filled(cfg, rounds)[i][j] == Drawn(rounds, (i, j))
  {
    hide Stow, ValidRound, Drawn;
    if rounds == [] {
      NothingDrawn(cfg, i, j);
    } else {
      var n := |rounds| - 1;
      FilledCounts(cfg, rounds[..n], i, j);
      assert ValidRound(cfg, rounds[n]);
      RoundIsInRange(cfg, rounds[n]);
      StowCounts(Filled(cfg, rounds[..n]), rounds[n], i, j);
      DrawnLast(rounds, (i, j));
    }
  }

  lemma RoundIsInRange(cfg: Config, round: seq<(nat, nat)>)
    requires ValidRound(cfg, round)
    ensures forall p :: p in round ==> p.0 < NUM_WAREHOUSES && p.1 < NUM_WAREHOUSES
  {
  }

  lemma NothingDrawn(cfg: Config, i: nat, j: nat)
    requires i < NUM_WAREHOUSES && j < NUM_WAREHOUSES
    ensures Filled(cfg, [])[i][j] == 0 == Drawn([], (i, j))
  {
  }

  // ------------------------------------------------------- the first goal assignment

  /** A target before the first goal assignment. */
  predicate IsNew(r: Row, heavy: bool) {
    && r.capacity == (if heavy then 2 else 1)
    && Carries(r, -1, 0) && r.freight == 0 && r.bounty == 0 && r.steps == 0 && r.tracked == 0
    && |r.empty| == NUM_WAREHOUSES && forall w :: 0 <= w < NUM_WAREHOUSES ==> !r.empty[w]
  }

  /** The cleared environment: new targets, the drawn stock, and what it makes each warehouse
      await. */
  predicate IsBlank(cfg: Config, input: ResetInput, s: State)
    requires ValidRounds(cfg, input.rounds)
  {
    && Shaped(cfg, s)
    && (forall t :: 0 <= t < cfg.numTargets ==> IsNew(s.rows[t], t in input.heavy))
    && (forall i, j :: 0 <= i < NUM_WAREHOUSES && 0 <= j < NUM_WAREHOUSES ==> s.remaining[i][j] == Drawn(input.rounds, (i, j)))
    && (forall j :: 0 <= j < NUM_WAREHOUSES ==>
          s.awaiting[j] == Drawn(input.rounds, (0, j)) + Drawn(input.rounds, (1, j)) + Drawn(input.rounds, (2, j)) + Drawn(input.rounds, (3, j)))
    && s.delivered == 0 && s.dense == 0 && s.delayed == 0 && s.clock == 0
  }

  lemma BlankIsBlank(cfg: Config, input: ResetInput)
    requires ValidConfig(cfg) && ValidRounds(cfg, input.rounds)
    ensures IsBlank(cfg, input, Blank(cfg, input.heavy, Filled(cfg, input.rounds)))
  {
    hide Filled, Drawn, ValidRounds, Sum;
    var stock := Filled(cfg, input.rounds);
    forall i, j | 0 <= i < NUM_WAREHOUSES && 0 <= j < NUM_WAREHOUSES
      ensures stock[i][j] == Drawn(input.rounds, (i, j))
    {
      FilledCounts(cfg, input.rounds, i, j);
    }
    forall j | 0 <= j < NUM_WAREHOUSES
      ensures ColumnSums(stock)[j] == stock[0][j] + stock[1][j] + stock[2][j] + stock[3][j]
    {
      SumOfFour(Column(stock, j));
    }
  }

  /** The first goal assignment of a reset is a goal assignment like any other, on the blank
      state; only its rewards, deliveries and flags are dropped. */
  lemma FirstAssignmentIsCall(cfg: Config, input: ResetInput) returns (blank: State, o: Outcome, trace: seq<Outcome>)
    requires ValidConfig(cfg) && ValidReset(cfg, input)
    ensures IsBlank(cfg, input, blank) && Call(cfg, blank, input.view, o, trace)
    ensures var s := FirstAssignment(cfg, input);
      && |o.state.rows| == cfg.numTargets
      && s == o.state.(rows := s.rows, delivered := 0)
      && forall t :: 0 <= t < cfg.numTargets ==> s.rows[t] == o.state.rows[t].(done := false)
  {
    hide Filled, AllStocked, Call, AssignGoals, IsPermutation, IsBlank;
    var stock := Filled(cfg, input.rounds);
    blank := Blank(cfg, input.heavy, stock);
    BlankIsBlank(cfg, input);
    FilledAdds(cfg, input.rounds);
    BlankIsSound(cfg, input.heavy, stock);
    o := AssignGoals(cfg, blank, input.view);
    trace := AssignGoalsIsCall(cfg, blank, input.view, Sum(ColumnSums(stock)));
  }

  /** In a call a target's records do not change before its turn or after it. */
  lemma {:induction false} OwnTurn(cfg: Config, input: Input, trace: seq<Outcome>, t: nat, n: nat)
    requires ShapedInput(cfg, input) && |trace| == cfg.numTargets + 1 && t < cfg.numTargets && n <= cfg.numTargets
    requires Shaped(cfg, trace[0].state) && forall i :: 0 <= i < cfg.numTargets ==> TurnAt(cfg, input, trace, i)
    ensures Shaped(cfg, trace[n].state) && Shaped(cfg, trace[t + 1].state)
    ensures trace[n].state.rows[t] == if n <= t then trace[0].state.rows[t] else trace[t + 1].state.rows[t]
  {
    hide TurnLoad, TurnPayment, TurnKnowledge;
    assert TurnAt(cfg, input, trace, t);
    if n > 0 {
      OwnTurn(cfg, input, trace, t, n - 1);
      assert TurnAt(cfg, input, trace, n - 1);
    }
  }

  /** One target's part of a call: its records at its turn, what the turn does, and what the
      call leaves. */
  lemma PartInCall(cfg: Config, s: State, input: Input, o: Outcome, trace: seq<Outcome>, t: nat) returns (here: State, left: State)
    requires Shaped(cfg, s) && ShapedInput(cfg, input) && Call(cfg, s, input, o, trace) && t < cfg.numTargets
    ensures Shaped(cfg, here) && Shaped(cfg, left) && |o.state.rows| == cfg.numTargets
    ensures here.rows[t] == s.rows[t].(bounty := Max(0, s.rows[t].bounty - if input.tracked[t] then 1 else 0))
    ensures TurnLoad(cfg, here, left, t, input.inside[t]) && TurnKnowledge(cfg, here, left, t, input.inside[t])
    ensures o.state.rows[t] == left.rows[t].(done := o.state.rows[t].done)
  {
    hide Turn, Charged;
    OwnTurn(cfg, input, trace, t, t);
    OwnTurn(cfg, input, trace, t, cfg.numTargets);
    assert TurnAt(cfg, input, trace, t);
    here, left := trace[t].state, trace[t + 1].state;
    TurnParts(cfg, trace[t], trace[t + 1], t, input.inside[t]);
  }

  lemma TurnParts(cfg: Config, o: Outcome, o': Outcome, t: nat, inside: seq<bool>)
    requires Shaped(cfg, o.state) && Shaped(cfg, o'.state) && t < cfg.numTargets && |inside| == NUM_WAREHOUSES
    requires Turn(cfg, o, o', t, inside)
    ensures TurnLoad(cfg, o.state, o'.state, t, inside) && TurnKnowledge(cfg, o.state, o'.state, t, inside)
  {
    hide TurnLoad, TurnKnowledge, TurnPayment;
  }

  /** What the first goal assignment does to one target, seen from the stock at its turn: who
      stands nowhere stays as it was and has learned nothing; who stands in a warehouse with
      something in stock gets a load there. */
  lemma FirstTurn(cfg: Config, input: ResetInput, t: nat) returns (here: State, left: State)
    requires ValidConfig(cfg) && ValidReset(cfg, input) && t < cfg.numTargets
    ensures Shaped(cfg, here) && Shaped(cfg, left) && IsNew(here.rows[t], t in input.heavy)
    ensures FirstPart(cfg, here, left, t, t in input.heavy, input.view.inside[t], FirstAssignment(cfg, input).rows[t])
  {
    hide FirstAssignment, Call, TurnLoad, TurnKnowledge, Filled, AllStocked, FirstOpen, Drawn, IsPermutation;
    var blank, o, trace := FirstAssignmentIsCall(cfg, input);
    here, left := PartInCall(cfg, blank, input.view, o, trace, t);
    StaysNew(cfg, blank, here, input.view.tracked[t], t, t in input.heavy);
    SameLoad(cfg, here, left, t, t in input.heavy, input.view.inside[t], FirstAssignment(cfg, input).rows[t]);
  }

  ghost predicate FirstPart(cfg: Config, here: State, left: State, t: nat, heavy: bool, inside: seq<bool>, r: Row)
    requires Shaped(cfg, here) && Shaped(cfg, left) && t < cfg.numTargets && |inside| == NUM_WAREHOUSES
  {
    && |r.empty| == NUM_WAREHOUSES
    && ((forall w :: 0 <= w < NUM_WAREHOUSES ==> !inside[w]) ==> IsNew(r, heavy))
    && ((exists w :: FirstOpen(here, here.rows[t], inside, w)) ==>
          exists w: nat, goal: nat :: FirstOpen(here, here.rows[t], inside, w) && goal < NUM_WAREHOUSES && Loads(cfg, here.remaining, left.remaining, here.rows[t], r, w, goal))
    && (forall w :: 0 <= w < NUM_WAREHOUSES ==> (r.empty[w] <==> inside[w] && IsEmpty(left.remaining[w])))
  }

  lemma StaysNew(cfg: Config, s: State, s': State, tracked: bool, t: nat, heavy: bool)
    requires Shaped(cfg, s) && Shaped(cfg, s') && t < cfg.numTargets && IsNew(s.rows[t], heavy)
    requires s'.rows[t] == s.rows[t].(bounty := Max(0, s.rows[t].bounty - if tracked then 1 else 0))
    ensures IsNew(s'.rows[t], heavy)
  {
  }

  lemma SameLoad(cfg: Config, here: State, left: State, t: nat, heavy: bool, inside: seq<bool>, r: Row)
    requires Shaped(cfg, here) && Shaped(cfg, left) && t < cfg.numTargets && |inside| == NUM_WAREHOUSES
    requires TurnLoad(cfg, here, left, t, inside) && TurnKnowledge(cfg, here, left, t, inside)
    requires r == left.rows[t].(done := false) && IsNew(here.rows[t], heavy)
    ensures FirstPart(cfg, here, left, t, heavy, inside, r)
  {
    hide IsEmpty, Loads, SameStock;
    if exists w :: FirstOpen(here, here.rows[t], inside, w) {
      var v :| FirstOpen(here, here.rows[t], inside, v);
      assert TradesAt(here.rows[t], inside, v);
      var w: nat, goal: nat :| FirstOpen(here, here.rows[t], inside, w) && goal < NUM_WAREHOUSES && Loads(cfg, here.remaining, left.remaining, here.rows[t], left.rows[t], w, goal);
      LoadsIgnoresFlag(cfg, here.remaining, left.remaining, here.rows[t], left.rows[t], w, goal);
    }
  }

  lemma LoadsIgnoresFlag(cfg: Config, before: seq<seq<nat>>, after: seq<seq<nat>>, r: Row, r': Row, w: nat, goal: nat)
    requires ShapedStock(before) && ShapedStock(after) && w < NUM_WAREHOUSES && goal < NUM_WAREHOUSES
    requires Loads(cfg, before, after, r, r', w, goal)
    ensures Loads(cfg, before, after, r, r'.(done := false), w, goal)
  {
  }

  // ----------------------------------------------------------- where loads come from

  /** What has been taken out of one cell, target by target. */
  function TakenAt(sources: seq<int>, rows: seq<Row>, w: nat, g: nat): seq<int>
    requires |sources| == |rows|
  {
    seq(|rows|, t requires 0 <= t < |rows| => if sources[t] == w && g < |rows[t].bits| then rows[t].bits[g] else 0)
  }

  /** Every load was taken from a warehouse, and each cell of the stock holds what was drawn
      for it less the loads taken there. */
  predicate ComesFrom(cfg: Config, stock: seq<seq<nat>>, s: State, sources: seq<int>)
    requires ShapedStock(stock) && Shaped(cfg, s)
  {
    && |sources| == cfg.numTargets
    && (forall t :: 0 <= t < cfg.numTargets ==> -1 <= sources[t] < NUM_WAREHOUSES && (0 <= sources[t] <==> 0 <= s.rows[t].goal))
    && forall w, g :: 0 <= w < NUM_WAREHOUSES && 0 <= g < NUM_WAREHOUSES ==> CellFrom(stock, s, sources, w, g)
  }

  predicate CellFrom(stock: seq<seq<nat>>, s: State, sources: seq<int>, w: nat, g: nat)
    requires ShapedStock(stock) && ShapedStock(s.remaining) && |sources| == |s.rows| && w < NUM_WAREHOUSES && g < NUM_WAREHOUSES
  {
    stock[w][g] == s.remaining[w][g] + Sum(TakenAt(sources, s.rows, w, g))
  }

  /** A load moves from a cell to a target. */
  lemma LoadMoves(cfg: Config, stock: seq<seq<nat>>, s: State, s': State, sources: seq<int>, t: nat, w: nat, goal: nat)
    requires ShapedStock(stock) && Shaped(cfg, s) && Shaped(cfg, s') && ComesFrom(cfg, stock, s, sources)
    requires t < cfg.numTargets && sources[t] == -1 && w < NUM_WAREHOUSES && goal < NUM_WAREHOUSES
    requires Loads(cfg, s.remaining, s'.remaining, s.rows[t], s'.rows[t], w, goal)
    requires forall i :: 0 <= i < cfg.numTargets && i != t ==> s'.rows[i] == s.rows[i]
    ensures ComesFrom(cfg, stock, s', sources[t := w])
  {
    hide Sum;
    var sources' := sources[t := w];
    forall v, g | 0 <= v < NUM_WAREHOUSES && 0 <= g < NUM_WAREHOUSES
      ensures CellFrom(stock, s', sources', v, g)
    {
      var x := if v == w then s'.rows[t].bits[g] else 0;
      assert CellFrom(stock, s, sources, v, g);
      assert TakenAt(sources', s'.rows, v, g) == TakenAt(sources, s.rows, v, g)[t := x];
      SumUpdate(TakenAt(sources, s.rows, v, g), t, x);
    }
  }

  /** A target that is not loaded and takes nothing changes nothing. */
  lemma NothingMoves(cfg: Config, stock: seq<seq<nat>>, s: State, s': State, sources: seq<int>, t: nat)
    requires ShapedStock(stock) && Shaped(cfg, s) && Shaped(cfg, s') && ComesFrom(cfg, stock, s, sources)
    requires t < cfg.numTargets && sources[t] == -1 && s'.rows[t].goal == -1 && SameStock(s.remaining, s'.remaining)
    requires forall i :: 0 <= i < cfg.numTargets && i != t ==> s'.rows[i] == s.rows[i]
    ensures ComesFrom(cfg, stock, s', sources)
  {
    hide Sum;
    forall v, g | 0 <= v < NUM_WAREHOUSES && 0 <= g < NUM_WAREHOUSES
      ensures CellFrom(stock, s', sources, v, g)
    {
      assert CellFrom(stock, s, sources, v, g);
      assert TakenAt(sources, s'.rows, v, g) == TakenAt(sources, s.rows, v, g);
    }
  }

  /** In the turn of a target that is not loaded cargo moves from a warehouse where it stands,
      if at all. */
  lemma TurnMoves(cfg: Config, stock: seq<seq<nat>>, s: State, s': State, sources: seq<int>, t: nat, inside: seq<bool>) returns (sources': seq<int>)
    requires ShapedStock(stock) && Shaped(cfg, s) && Shaped(cfg, s') && ComesFrom(cfg, stock, s, sources)
    requires t < cfg.numTargets && |inside| == NUM_WAREHOUSES && s.rows[t].goal == -1 && TurnLoad(cfg, s, s', t, inside)
    requires forall i :: 0 <= i < cfg.numTargets && i != t ==> s'.rows[i] == s.rows[i]
    ensures ComesFrom(cfg, stock, s', sources')
    ensures forall i :: 0 <= i < cfg.numTargets && i != t ==> sources'[i] == sources[i]
    ensures 0 <= sources'[t] ==> inside[sources'[t]]
  {
    hide CellFrom, Loads, SameStock, IsEmpty;
    if (exists w :: TradesAt(s.rows[t], inside, w)) && exists w :: FirstOpen(s, s.rows[t], inside, w) {
      var w: nat, goal: nat :| FirstOpen(s, s.rows[t], inside, w) && goal < NUM_WAREHOUSES && Loads(cfg, s.remaining, s'.remaining, s.rows[t], s'.rows[t], w, goal);
      LoadMoves(cfg, stock, s, s', sources, t, w, goal);
      sources' := sources[t := w];
    } else {
      NothingMoves(cfg, stock, s, s', sources, t);
      sources' := sources;
    }
  }

  /** After n turns of a call that began with nobody loaded. */
  lemma {:induction false} CallMoves(cfg: Config, stock: seq<seq<nat>>, input: Input, trace: seq<Outcome>, n: nat) returns (sources: seq<int>)
    requires ShapedInput(cfg, input) && |trace| == cfg.numTargets + 1 && n <= cfg.numTargets && ShapedStock(stock)
    requires Shaped(cfg, trace[0].state) && forall i :: 0 <= i < cfg.numTargets ==> TurnAt(cfg, input, trace, i)
    requires Unloaded(trace[0].state) && SameStock(stock, trace[0].state.remaining)
    ensures Shaped(cfg, trace[n].state) && ComesFrom(cfg, stock, trace[n].state, sources)
    ensures forall i :: n <= i < cfg.numTargets ==> sources[i] == -1 && trace[n].state.rows[i].goal == -1
    ensures forall i :: 0 <= i < cfg.numTargets && 0 <= sources[i] ==> input.inside[i][sources[i]]
  {
    hide ComesFrom, TurnLoad, TurnPayment, TurnKnowledge;
    if n == 0 {
      sources := seq(cfg.numTargets, i => -1);
      NothingTaken(cfg, stock, trace[0].state, sources);
    } else {
      var before := CallMoves(cfg, stock, input, trace, n - 1);
      SourcesFit(cfg, stock, trace[n - 1].state, before);
      assert TurnAt(cfg, input, trace, n - 1);
      sources := TurnMoves(cfg, stock, trace[n - 1].state, trace[n].state, before, n - 1, input.inside[n - 1]);
      SourcesFit(cfg, stock, trace[n].state, sources);
    }
  }

  lemma SourcesFit(cfg: Config, stock: seq<seq<nat>>, s: State, sources: seq<int>)
    requires ShapedStock(stock) && Shaped(cfg, s) && ComesFrom(cfg, stock, s, sources)
    ensures |sources| == cfg.numTargets
    ensures forall t :: 0 <= t < cfg.numTargets ==> -1 <= sources[t] < NUM_WAREHOUSES && (0 <= sources[t] <==> 0 <= s.rows[t].goal)
  {
  }

  lemma NothingTaken(cfg: Config, stock: seq<seq<nat>>, s: State, sources: seq<int>)
    requires ShapedStock(stock) && Shaped(cfg, s) && SameStock(stock, s.remaining) && Unloaded(s)
    requires |sources| == cfg.numTargets && forall t :: 0 <= t < cfg.numTargets ==> sources[t] == -1
    ensures ComesFrom(cfg, stock, s, sources)
  {
    hide Sum;
    forall w, g | 0 <= w < NUM_WAREHOUSES && 0 <= g < NUM_WAREHOUSES
      ensures CellFrom(stock, s, sources, w, g)
    {
      SumOfZeros(TakenAt(sources, s.rows, w, g));
    }
  }

  /** Where the loads of the first goal assignment come from: from warehouses where their
      targets stand. */
  lemma FirstLoadsComeFromStock(cfg: Config, input: ResetInput) returns (sources: seq<int>)
    requires ValidConfig(cfg) && ValidReset(cfg, input)
    ensures ComesFrom(cfg, Filled(cfg, input.rounds), FirstAssignment(cfg, input), sources)
    ensures |sources| == cfg.numTargets
    ensures forall t :: 0 <= t < cfg.numTargets && 0 <= sources[t] < NUM_WAREHOUSES ==> input.view.inside[t][sources[t]]
  {
    hide FirstAssignment, AllStocked, Drawn, IsPermutation, ComesFrom, Filled;
    var blank, o, trace := FirstAssignmentIsCall(cfg, input);
    FilledIsBlank(cfg, input, blank);
    CallOpens(cfg, blank, input.view, o, trace);
    sources := CallMoves(cfg, Filled(cfg, input.rounds), input.view, trace, cfg.numTargets);
    SourcesFit(cfg, Filled(cfg, input.rounds), trace[cfg.numTargets].state, sources);
    SameBitsSameSources(cfg, Filled(cfg, input.rounds), trace[cfg.numTargets].state, FirstAssignment(cfg, input), sources);
  }

  lemma FilledIsBlank(cfg: Config, input: ResetInput, blank: State)
    requires ValidRounds(cfg, input.rounds) && IsBlank(cfg, input, blank)
    ensures SameStock(Filled(cfg, input.rounds), blank.remaining) && Unloaded(blank)
  {
    hide Filled, Drawn;
    forall i, j | 0 <= i < NUM_WAREHOUSES && 0 <= j < NUM_WAREHOUSES
      ensures blank.remaining[i][j] == Filled(cfg, input.rounds)[i][j]
    {
      FilledCounts(cfg, input.rounds, i, j);
    }
  }

  lemma CallOpens(cfg: Config, s: State, input: Input, o: Outcome, trace: seq<Outcome>)
    requires Shaped(cfg, s) && ShapedInput(cfg, input) && Call(cfg, s, input, o, trace)
    ensures |trace| == cfg.numTargets + 1 && Shaped(cfg, trace[0].state) && Shaped(cfg, trace[cfg.numTargets].state)
    ensures forall i :: 0 <= i < cfg.numTargets ==> TurnAt(cfg, input, trace, i)
    ensures trace[0].state.remaining == s.remaining && (Unloaded(s) ==> Unloaded(trace[0].state))
    ensures o.state.remaining == trace[cfg.numTargets].state.remaining && |o.state.rows| == cfg.numTargets
    ensures forall t :: 0 <= t < cfg.numTargets ==> o.state.rows[t] == trace[cfg.numTargets].state.rows[t].(done := o.state.rows[t].done)
  {
    hide TurnAt, Charged;
  }

  lemma SameBitsSameSources(cfg: Config, stock: seq<seq<nat>>, s: State, s': State, sources: seq<int>)
    requires ShapedStock(stock) && Shaped(cfg, s) && Shaped(cfg, s') && ComesFrom(cfg, stock, s, sources)
    requires s'.remaining == s.remaining
    requires forall t :: 0 <= t < cfg.numTargets ==> s'.rows[t].bits == s.rows[t].bits && s'.rows[t].goal == s.rows[t].goal
    ensures ComesFrom(cfg, stock, s', sources)
  {
    hide Sum;
    forall w, g | 0 <= w < NUM_WAREHOUSES && 0 <= g < NUM_WAREHOUSES
      ensures CellFrom(stock, s', sources, w, g)
    {
      assert CellFrom(stock, s, sources, w, g);
      assert TakenAt(sources, s'.rows, w, g) == TakenAt(sources, s.rows, w, g);
    }
  }

  // --------------------------------------------------------------- the initial loads

  /** Nothing changes but the stock and the load of target t. */
  predicate OnlyLoad(s: State, s': State, t: nat)
    requires t < |s.rows| == |s'.rows|
  {
    var r, r' := s.rows[t], s'.rows[t];
    && s' == s.(remaining := s'.remaining, rows := s'.rows)
    && r' == r.(goal := r'.goal, bits := r'.bits, entityBits := r'.entityBits, freight := r'.freight, bounty := r'.bounty)
    && (forall i :: 0 <= i < |s.rows| && i != t ==> s'.rows[i] == s.rows[i])
  }

  /** A target that starts loaded takes as much as it can carry from the first warehouse in
      its order that has something in stock; a loaded one and all others are left alone. */
  lemma LoadAtIsExact(cfg: Config, s: State, t: nat, order: seq<nat>, raw: nat, total: int) returns (k: nat, goal: nat)
    requires ValidConfig(cfg) && Fresh(cfg, s, total) && NUM_WAREHOUSES * cfg.numTargets <= total
    requires t < cfg.numTargets && IsPermutation(order, NUM_WAREHOUSES)
    ensures var s' := LoadAt(cfg, s, t, order, raw);
      && Shaped(cfg, s)
      && (0 <= s.rows[t].goal ==> s' == s)
      && (s.rows[t].goal < 0 ==>
            && k < NUM_WAREHOUSES && goal < NUM_WAREHOUSES && (forall i :: 0 <= i < k ==> IsEmpty(s.remaining[order[i]]))
            && Loads(cfg, s.remaining, s'.remaining, s.rows[t], s'.rows[t], order[k], goal))
      && OnlyLoad(s, s', t)
  {
    hide Stocked, IsEmpty, TakeLoad, Loads, FirstStocked;
    k, goal := 0, 0;
    if s.rows[t].goal < 0 {
      NeverPassedOver(cfg, s, t, order, total);
      k := FirstStockedIsFirst(order, s.remaining);
      forall i | 0 <= i < k
        ensures IsEmpty(s.remaining[order[i]])
      {
        StockedIsNotEmpty(s.remaining[order[i]]);
      }
      goal := TakeLoadLoads(cfg, s, t, order[k], raw);
    }
  }

  lemma NeverPassedOver(cfg: Config, s: State, t: nat, order: seq<nat>, total: int)
    requires ValidConfig(cfg) && Fresh(cfg, s, total) && NUM_WAREHOUSES * cfg.numTargets <= total
    requires t < cfg.numTargets && IsPermutation(order, NUM_WAREHOUSES) && s.rows[t].goal < 0
    ensures FirstStocked(order, s.remaining) < NUM_WAREHOUSES
    ensures s.rows[t].goal == -1 && s.rows[t].bits == Zeros() && s.rows[t].entityBits == Zeros()
  {
    RowIsSound(cfg, s, total, t);
    StockIsLeft(cfg, s, total);
    var v :| 0 <= v < NUM_WAREHOUSES && Stocked(s.remaining[v]);
    var k := PermutationIsOnto(order, NUM_WAREHOUSES, v);
  }

  lemma {:induction false} LoadFirstMoves(cfg: Config, stock: seq<seq<nat>>, s: State, n: nat, order: nat -> seq<nat>, redraw: nat -> nat, total: int, first: seq<int>) returns (sources: seq<int>)
    requires ValidConfig(cfg) && Fresh(cfg, s, total) && NUM_WAREHOUSES * cfg.numTargets <= total
    requires n <= cfg.numTargets && forall t :: IsPermutation(order(t), NUM_WAREHOUSES)
    requires ShapedStock(stock) && Shaped(cfg, s) && ComesFrom(cfg, stock, s, first)
    ensures ComesFrom(cfg, stock, LoadFirst(cfg, s, n, order, redraw), sources)
  {
    hide Fresh, LoadAt, ComesFrom, IsPermutation;
    if n == 0 {
      sources := first;
    } else {
      var t := n - 1;
      var before := LoadFirst(cfg, s, t, order, redraw);
      sources := LoadFirstMoves(cfg, stock, s, t, order, redraw, total, first);
      LoadFirstIsSound(cfg, s, t, order, redraw, total);
      var k, goal := LoadAtIsExact(cfg, before, t, order(t), redraw(t), total);
      SourcesFit(cfg, stock, before, sources);
      if before.rows[t].goal < 0 {
        OrderFits(order(t), k);
        LoadMoves(cfg, stock, before, LoadAt(cfg, before, t, order(t), redraw(t)), sources, t, order(t)[k], goal);
        sources := sources[t := order(t)[k]];
      }
    }
  }

  lemma OrderFits(order: seq<nat>, k: nat)
    requires IsPermutation(order, NUM_WAREHOUSES) && k < NUM_WAREHOUSES
    ensures k < |order| && order[k] < NUM_WAREHOUSES
  {
  }

  /** Everything that the targets carry after a reset was taken out of the stock, and each
      cell of the stock is what was drawn for it less the loads taken there. */
  lemma LoadsComeFromStock(cfg: Config, input: ResetInput) returns (sources: seq<int>)
    requires ValidConfig(cfg) && ValidReset(cfg, input)
    ensures |sources| == cfg.numTargets
    ensures var s := Initial(cfg, input);
      forall w, g :: 0 <= w < NUM_WAREHOUSES && 0 <= g < NUM_WAREHOUSES ==>
        Drawn(input.rounds, (w, g)) == s.remaining[w][g] + Sum(TakenAt(sources, s.rows, w, g))
  {
    hide FirstAssignment, ComesFrom, Filled, LoadFirst, Drawn, Sum, IsPermutation, AllStocked, Fresh;
    sources := FirstLoadsComeFromStock(cfg, input);
    var stock := Filled(cfg, input.rounds);
    if cfg.startLoaded {
      EnoughCargo(cfg, input);
      FirstAssignmentIsSound(cfg, input);
      sources := LoadFirstMoves(cfg, stock, FirstAssignment(cfg, input), cfg.numTargets, input.order, input.redraw, InitialCargo(cfg, input), sources);
    }
    SourcesFit(cfg, stock, Initial(cfg, input), sources);
    forall w, g | 0 <= w < NUM_WAREHOUSES && 0 <= g < NUM_WAREHOUSES
      ensures Drawn(input.rounds, (w, g)) == Initial(cfg, input).remaining[w][g] + Sum(TakenAt(sources, Initial(cfg, input).rows, w, g))
    {
      FilledCounts(cfg, input.rounds, w, g);
      CellOf(cfg, stock, Initial(cfg, input), sources, w, g);
    }
  }

  lemma CellOf(cfg: Config, stock: seq<seq<nat>>, s: State, sources: seq<int>, w: nat, g: nat)
    requires ShapedStock(stock) && Shaped(cfg, s) && ComesFrom(cfg, stock, s, sources) && w < NUM_WAREHOUSES && g < NUM_WAREHOUSES
    ensures |sources| == |s.rows| && stock[w][g] == s.remaining[w][g] + Sum(TakenAt(sources, s.rows, w, g))
  {
    hide Sum;
    assert CellFrom(stock, s, sources, w, g);
  }

  /** What target t gets when targets start loaded, with its own order of the warehouses. */
  ghost predicate InitialLoad(cfg: Config, s: State, s': State, t: nat, order: seq<nat>)
    requires Shaped(cfg, s) && Shaped(cfg, s') && t < cfg.numTargets && IsPermutation(order, NUM_WAREHOUSES)
  {
    && (0 <= s.rows[t].goal ==> s' == s)
    && (s.rows[t].goal < 0 ==> exists k: nat, goal: nat ::
          && k < NUM_WAREHOUSES && goal < NUM_WAREHOUSES && (forall i :: 0 <= i < k ==> IsEmpty(s.remaining[order[i]]))
          && Loads(cfg, s.remaining, s'.remaining, s.rows[t], s'.rows[t], order[k], goal))
    && OnlyLoad(s, s', t)
  }

  ghost predicate InitialLoadAt(cfg: Config, input: ResetInput, trace: seq<State>, t: nat)
    requires |trace| == cfg.numTargets + 1 && t < cfg.numTargets && forall i :: IsPermutation(input.order(i), NUM_WAREHOUSES)
  {
    Shaped(cfg, trace[t]) && Shaped(cfg, trace[t + 1]) && InitialLoad(cfg, trace[t], trace[t + 1], t, input.order(t))
  }

  /** When targets start loaded, they are loaded one after the other on what the first goal
      assignment left; otherwise the reset ends there. */
  lemma InitialLoadsInTurn(cfg: Config, input: ResetInput) returns (trace: seq<State>)
    requires ValidConfig(cfg) && ValidReset(cfg, input)
    ensures |trace| == cfg.numTargets + 1 && trace[0] == FirstAssignment(cfg, input)
    ensures Initial(cfg, input) == if cfg.startLoaded then trace[cfg.numTargets] else trace[0]
    ensures cfg.startLoaded ==> forall t :: 0 <= t < cfg.numTargets ==> InitialLoadAt(cfg, input, trace, t)
  {
    hide FirstAssignment, LoadFirst, AllStocked, Filled, IsPermutation, InitialLoadAt, Fresh;
    var s, total := FirstAssignment(cfg, input), InitialCargo(cfg, input);
    FirstAssignmentIsSound(cfg, input);
    EnoughCargo(cfg, input);
    trace := LoadTrace(cfg, s, input.order, input.redraw);
    forall t | 0 <= t < cfg.numTargets
      ensures InitialLoadAt(cfg, input, trace, t)
    {
      LoadInTurn(cfg, input, s, t, total);
    }
    LoadTraceEnds(cfg, s, input.order, input.redraw);
  }

  ghost function LoadTrace(cfg: Config, s: State, order: nat -> seq<nat>, redraw: nat -> nat): (trace: seq<State>)
    requires Shaped(cfg, s) && forall i :: IsPermutation(order(i), NUM_WAREHOUSES)
    ensures |trace| == cfg.numTargets + 1
  {
    seq(cfg.numTargets + 1, n requires 0 <= n <= cfg.numTargets => LoadFirst(cfg, s, n, order, redraw))
  }

  lemma LoadTraceEnds(cfg: Config, s: State, order: nat -> seq<nat>, redraw: nat -> nat)
    requires Shaped(cfg, s) && forall i :: IsPermutation(order(i), NUM_WAREHOUSES)
    ensures LoadTrace(cfg, s, order, redraw)[0] == s
    ensures LoadTrace(cfg, s, order, redraw)[cfg.numTargets] == LoadFirst(cfg, s, cfg.numTargets, order, redraw)
  {
    hide LoadAt, IsPermutation;
  }

  lemma LoadInTurn(cfg: Config, input: ResetInput, s: State, t: nat, total: int)
    requires ValidConfig(cfg) && Shaped(cfg, s) && Fresh(cfg, s, total) && NUM_WAREHOUSES * cfg.numTargets <= total
    requires t < cfg.numTargets && forall i :: IsPermutation(input.order(i), NUM_WAREHOUSES)
    ensures InitialLoadAt(cfg, input, LoadTrace(cfg, s, input.order, input.redraw), t)
  {
    hide Fresh, LoadAt, IsPermutation, Loads, IsEmpty;
    var before := LoadFirst(cfg, s, t, input.order, input.redraw);
    LoadFirstIsSound(cfg, s, t, input.order, input.redraw, total);
    var k, goal := LoadAtIsExact(cfg, before, t, input.order(t), input.redraw(t), total);
  }
}
