/** A reset establishes the invariant and, when targets start loaded, loads every target. */
module CargoReset {
  import opened FiniteSets
  import opened Sums
  import opened CargoEconomy
  import opened CargoInvariants

  /** The cargo an episode starts with: the fill loop may need several rounds. */
  function InitialCargo(cfg: Config, input: ResetInput): int {
    |input.rounds| * (cfg.cargoesPerTarget * cfg.numTargets)
  }

  lemma {:induction false} StowAdds(remaining: seq<seq<nat>>, round: seq<(nat, nat)>)
    requires ShapedStock(remaining)
    requires forall p :: p in round ==> p.0 < NUM_WAREHOUSES && p.1 < NUM_WAREHOUSES && p.0 != p.1
    ensures Sum(ColumnSums(Stow(remaining, round))) == Sum(ColumnSums(remaining)) + |round|
    ensures NoSelfCargo(remaining) ==> NoSelfCargo(Stow(remaining, round))
  {
    if round != [] {
      var n := |round| - 1;
      StowAdds(remaining, round[..n]);
      var before := Stow(remaining, round[..n]);
      var (i, j) := round[n];
      assert round[n] in round;
      var after := SetCell(before, i, j, before[i][j] + 1);
      forall w | 0 <= w < NUM_WAREHOUSES
        ensures Sum(Column(after, w)) == Sum(Column(before, w)) + if w == j then 1 else 0
      {
        CellUpdate(before, i, j, before[i][j] + 1, w);
      }
      assert ColumnSums(after) == ColumnSums(before)[j := ColumnSums(before)[j] + 1];
      SumUpdate(ColumnSums(before), j, ColumnSums(before)[j] + 1);
    }
  }

  lemma {:induction false} FilledAdds(cfg: Config, rounds: seq<seq<(nat, nat)>>)
    requires ValidRounds(cfg, rounds)
    ensures Sum(ColumnSums(Filled(cfg, rounds))) == |rounds| * (cfg.cargoesPerTarget * cfg.numTargets)
    ensures NoSelfCargo(Filled(cfg, rounds))
  {
    if rounds == [] {
      var zeros := Filled(cfg, rounds);
      forall w | 0 <= w < NUM_WAREHOUSES
        ensures Sum(Column(zeros, w)) == 0
      {
        SumOfZeros(Column(zeros, w));
      }
      SumOfZeros(ColumnSums(zeros));
    } else {
      var n := |rounds| - 1;
      FilledAdds(cfg, rounds[..n]);
      assert ValidRound(cfg, rounds[n]);
      StowAdds(Filled(cfg, rounds[..n]), rounds[n]);
      assert (n + 1) * (cfg.cargoesPerTarget * cfg.numTargets)
          == n * (cfg.cargoesPerTarget * cfg.numTargets) + cfg.cargoesPerTarget * cfg.numTargets;
    }
  }

  /** The cleared environment with a filled stock satisfies the invariant. */
  lemma BlankIsSound(cfg: Config, heavy: set<nat>, stock: seq<seq<nat>>)
    requires ValidConfig(cfg) && ShapedStock(stock) && NoSelfCargo(stock)
    ensures Invariant(cfg, Blank(cfg, heavy, stock), Sum(ColumnSums(stock)))
  {
    var s := Blank(cfg, heavy, stock);
    forall w | 0 <= w < NUM_WAREHOUSES
      ensures Sum(InTransit(s.rows, w)) == 0
    {
      SumOfZeros(InTransit(s.rows, w));
    }
    SumOfZeros(Debts(cfg, s.rows));
  }

  /** Serving some targets leaves the rows of the others alone. */
  lemma {:induction false} ServeFirstFrame(cfg: Config, o: Outcome, n: nat, input: Input)
    requires Shaped(cfg, o.state) && n <= cfg.numTargets && ShapedInput(cfg, input)
    ensures forall i :: n <= i < cfg.numTargets ==> ServeFirst(cfg, o, n, input).state.rows[i] == o.state.rows[i]
  {
    if n > 0 {
      ServeFirstFrame(cfg, o, n - 1, input);
    }
  }

  predicate Unloaded(s: State) {
    forall t :: 0 <= t < |s.rows| ==> s.rows[t].goal == -1
  }

  predicate NoCounts(s: State) {
    forall t :: 0 <= t < |s.rows| ==> s.rows[t].tracked == 0
  }

  /** Where nobody is loaded nothing is delivered and nothing is paid. */
  lemma {:induction false} ServeUnloaded(cfg: Config, o: Outcome, n: nat, input: Input)
    requires Shaped(cfg, o.state) && n <= cfg.numTargets && ShapedInput(cfg, input) && Unloaded(o.state)
    ensures var o' := ServeFirst(cfg, o, n, input);
      o'.dense == o.dense && o'.delayed == o.delayed && o'.state.delivered == o.state.delivered
  {
    if n > 0 {
      ServeUnloaded(cfg, o, n - 1, input);
      ServeFirstFrame(cfg, o, n - 1, input);
    }
  }

  lemma ServeCountsNobody(cfg: Config, o: Outcome, t: nat, inside: seq<bool>, draw: (nat, nat) -> nat)
    requires Shaped(cfg, o.state) && t < cfg.numTargets && |inside| == NUM_WAREHOUSES && NoCounts(o.state)
    ensures NoCounts(Serve(cfg, o, t, inside, draw).state)
  {
  }

  lemma {:induction false} ServeCounts(cfg: Config, o: Outcome, n: nat, input: Input)
    requires Shaped(cfg, o.state) && n <= cfg.numTargets && ShapedInput(cfg, input) && NoCounts(o.state)
    ensures NoCounts(ServeFirst(cfg, o, n, input).state)
  {
    hide Serve, NoCounts;
    if n > 0 {
      ServeCounts(cfg, o, n - 1, input);
      ServeCountsNobody(cfg, ServeFirst(cfg, o, n - 1, input), n - 1, input.inside[n - 1], input.draw);
    }
  }

  lemma {:induction false} PayingNothing(rows: seq<Row>, tracked: seq<bool>)
    requires |rows| == |tracked|
    requires forall t :: 0 <= t < |rows| ==> rows[t].bounty == 0
    ensures Paying(rows, tracked) == 0
  {
    if rows != [] {
      PayingNothing(rows[1..], tracked[1..]);
    }
  }

  lemma OpenedBlank(cfg: Config, heavy: set<nat>, stock: seq<seq<nat>>, tracked: seq<bool>)
    requires |tracked| == cfg.numTargets
    ensures Opened(Blank(cfg, heavy, stock), tracked) == Outcome(Blank(cfg, heavy, stock), 0, 0)
  {
    var s := Blank(cfg, heavy, stock);
    PayingNothing(s.rows, tracked);
    assert Decay(s, tracked).rows == s.rows;
  }

  /** The invariant at the start of an episode: nothing counted, nothing paid. */
  ghost predicate Fresh(cfg: Config, s: State, total: int) {
    && Invariant(cfg, s, total) && NoCounts(s)
    && s.delivered == 0 && s.dense == 0 && s.delayed == 0 && s.clock == 0
  }

  /** The first call of the goal assignment pays nothing: nobody is loaded yet. */
  lemma FirstCallIsFree(cfg: Config, input: ResetInput, served: Outcome)
    requires ValidConfig(cfg) && ValidReset(cfg, input)
    requires var blank := Blank(cfg, input.heavy, Filled(cfg, input.rounds));
      served == ServeFirst(cfg, Opened(blank, input.view.tracked), cfg.numTargets, input.view)
    ensures MidInvariant(cfg, served, InitialCargo(cfg, input), NoneTracked(cfg)) && NoCounts(served.state)
    ensures served.dense == 0 && served.delayed == 0 && served.state.delivered == 0
    ensures served.state.dense == 0 && served.state.delayed == 0 && served.state.clock == 0
  {
    hide Filled, AllStocked, ServeFirst, MidInvariant, NoSelfCargo, IsPermutation;
    var stock := Filled(cfg, input.rounds);
    FilledAdds(cfg, input.rounds);
    var blank := Blank(cfg, input.heavy, stock);
    BlankIsSound(cfg, input.heavy, stock);
    OpenedBlank(cfg, input.heavy, stock, input.view.tracked);
    var start := Outcome(blank, 0, 0);
    ServeFirstKeeps(cfg, start, cfg.numTargets, input.view, InitialCargo(cfg, input), NoneTracked(cfg));
    ServeUnloaded(cfg, start, cfg.numTargets, input.view);
    ServeCounts(cfg, start, cfg.numTargets, input.view);
    ServeFirstOnlyPays(cfg, start, cfg.numTargets, input.view);
  }

  lemma UndoneKeeps(cfg: Config, s: State, total: int)
    requires Fresh(cfg, s, total)
    ensures Fresh(cfg, s.(rows := Undone(s.rows)), total)
  {
    RelabelKeeps(cfg, Outcome(s, 0, 0), Undone(s.rows), total, NoneTracked(cfg), NoneTracked(cfg));
  }

  lemma FirstAssignmentIsSound(cfg: Config, input: ResetInput)
    requires ValidConfig(cfg) && ValidReset(cfg, input)
    ensures Fresh(cfg, FirstAssignment(cfg, input), InitialCargo(cfg, input))
  {
    hide Filled, AllStocked, ServeFirst, MidInvariant, IsPermutation;
    var blank := Blank(cfg, input.heavy, Filled(cfg, input.rounds));
    var served := ServeFirst(cfg, Opened(blank, input.view.tracked), cfg.numTargets, input.view);
    FirstCallIsFree(cfg, input, served);
    MarkingKeeps(cfg, blank.rows, served, InitialCargo(cfg, input), NoneTracked(cfg));
    var marked := AssignGoals(cfg, blank, input.view).state;
    assert NoCounts(marked);
    UndoneKeeps(cfg, marked, InitialCargo(cfg, input));
  }

  predicate CarriesLittle(r: Row) {
    |r.bits| == NUM_WAREHOUSES && r.bits[0] + r.bits[1] + r.bits[2] + r.bits[3] <= 2
  }

  /** What the targets carry together: at most two units each. */
  lemma {:induction false} CarriedWeight(rows: seq<Row>)
    requires forall t :: 0 <= t < |rows| ==> CarriesLittle(rows[t])
    ensures Sum(InTransit(rows, 0)) + Sum(InTransit(rows, 1)) + Sum(InTransit(rows, 2)) + Sum(InTransit(rows, 3)) <= 2 * |rows|
  {
    if rows != [] {
      CarriedWeight(rows[1..]);
      assert InTransit(rows, 0)[1..] == InTransit(rows[1..], 0);
      assert InTransit(rows, 1)[1..] == InTransit(rows[1..], 1);
      assert InTransit(rows, 2)[1..] == InTransit(rows[1..], 2);
      assert InTransit(rows, 3)[1..] == InTransit(rows[1..], 3);
    }
  }

  lemma EmptyColumns(remaining: seq<seq<nat>>, w: nat)
    requires ShapedStock(remaining) && w < NUM_WAREHOUSES
    requires forall i :: 0 <= i < NUM_WAREHOUSES ==> !Stocked(remaining[i])
    ensures Sum(Column(remaining, w)) == 0
  {
    SumOfZeros(Column(remaining, w));
  }

  lemma SumOfFour(s: seq<int>)
    requires |s| == NUM_WAREHOUSES
    ensures Sum(s) == s[0] + s[1] + s[2] + s[3]
  {
    assert Sum(s[1..]) == s[1] + Sum(s[1..][1..]);
    assert Sum(s[2..]) == s[2] + Sum(s[2..][1..]);
    assert Sum(s[3..]) == s[3] + Sum(s[3..][1..]);
    assert s[1..][1..] == s[2..] && s[2..][1..] == s[3..];
  }

  /** Before the first delivery the targets cannot have taken the whole stock. */
  lemma StockIsLeft(cfg: Config, s: State, total: int)
    requires ValidConfig(cfg) && Invariant(cfg, s, total)
    requires s.delivered == 0 && NUM_WAREHOUSES * cfg.numTargets <= total
    ensures exists w :: 0 <= w < NUM_WAREHOUSES && Stocked(s.remaining[w])
  {
    if forall w :: 0 <= w < NUM_WAREHOUSES ==> !Stocked(s.remaining[w]) {
      forall w | 0 <= w < NUM_WAREHOUSES
        ensures s.awaiting[w] == Sum(InTransit(s.rows, w))
      {
        EmptyColumns(s.remaining, w);
      }
      forall t | 0 <= t < cfg.numTargets
        ensures CarriesLittle(s.rows[t])
      {
        assert RowInvariant(cfg, s.rows[t], NoneTracked(cfg)[t]);
      }
      CarriedWeight(s.rows);
      SumOfFour(s.awaiting);
      assert false;
    }
  }

  /** A target without a load finds one, whatever the permutation. */
  lemma LoadAtIsSound(cfg: Config, s: State, t: nat, order: seq<nat>, raw: nat, total: int)
    requires ValidConfig(cfg) && Fresh(cfg, s, total) && NUM_WAREHOUSES * cfg.numTargets <= total
    requires t < cfg.numTargets && IsPermutation(order, NUM_WAREHOUSES)
    ensures var s' := LoadAt(cfg, s, t, order, raw);
      && Fresh(cfg, s', total) && 0 <= s'.rows[t].goal
      && forall i :: 0 <= i < cfg.numTargets && i != t ==> s'.rows[i] == s.rows[i]
  {
    hide RowInvariant, Conserved, SoundKnowledge, PaidFairly, NoSelfCargo, Debts, Choice;
    if s.rows[t].goal < 0 {
      StockIsLeft(cfg, s, total);
      var v :| 0 <= v < NUM_WAREHOUSES && Stocked(s.remaining[v]);
      var k := PermutationIsOnto(order, NUM_WAREHOUSES, v);
      var w := FirstStocked(order, s.remaining);
      TakeLoadKeeps(cfg, Outcome(s, 0, 0), t, w, raw, total, NoneTracked(cfg));
    }
  }

  /** Handing out initial loads keeps the invariant, and no target is passed over. */
  lemma {:induction false} LoadFirstIsSound(cfg: Config, s: State, n: nat, order: nat -> seq<nat>, redraw: nat -> nat, total: int)
    requires ValidConfig(cfg) && Fresh(cfg, s, total) && NUM_WAREHOUSES * cfg.numTargets <= total
    requires n <= cfg.numTargets && forall t :: IsPermutation(order(t), NUM_WAREHOUSES)
    ensures Fresh(cfg, LoadFirst(cfg, s, n, order, redraw), total)
    ensures forall t :: 0 <= t < n ==> 0 <= LoadFirst(cfg, s, n, order, redraw).rows[t].goal
  {
    hide LoadAt, IsPermutation, RowInvariant, Conserved, SoundKnowledge, PaidFairly, NoSelfCargo, NoCounts, Debts;
    if n > 0 {
      LoadFirstIsSound(cfg, s, n - 1, order, redraw, total);
      LoadAtIsSound(cfg, LoadFirst(cfg, s, n - 1, order, redraw), n - 1, order(n - 1), redraw(n - 1), total);
    }
  }

  lemma EnoughCargo(cfg: Config, input: ResetInput)
    requires ValidConfig(cfg) && ValidReset(cfg, input)
    ensures 1 <= |input.rounds|
    ensures NUM_WAREHOUSES * cfg.numTargets <= InitialCargo(cfg, input)
  {
    assert input.rounds != [] by {
      var stock := Filled(cfg, input.rounds);
      assert Stocked(stock[0]);
    }
    assert NUM_WAREHOUSES * cfg.numTargets <= cfg.cargoesPerTarget * cfg.numTargets;
    assert cfg.cargoesPerTarget * cfg.numTargets <= |input.rounds| * (cfg.cargoesPerTarget * cfg.numTargets);
  }

  /** A reset establishes the invariant, with all counters and totals at zero; and when
      targets start loaded none is left without a load, whatever was drawn. */
  lemma ResetIsSound(cfg: Config, input: ResetInput)
    requires ValidConfig(cfg) && ValidReset(cfg, input)
    ensures Fresh(cfg, Initial(cfg, input), InitialCargo(cfg, input))
    ensures cfg.startLoaded ==> forall t :: 0 <= t < cfg.numTargets ==> 0 <= Initial(cfg, input).rows[t].goal
  {
    FirstAssignmentIsSound(cfg, input);
    if cfg.startLoaded {
      EnoughCargo(cfg, input);
      LoadFirstIsSound(cfg, FirstAssignment(cfg, input), cfg.numTargets, input.order, input.redraw, InitialCargo(cfg, input));
    }
  }

  lemma ServeKeepsCapacity(cfg: Config, o: Outcome, turn: nat, inside: seq<bool>, draw: (nat, nat) -> nat, t: nat)
    requires Shaped(cfg, o.state) && turn < cfg.numTargets && |inside| == NUM_WAREHOUSES && t < cfg.numTargets
    ensures Serve(cfg, o, turn, inside, draw).state.rows[t].capacity == o.state.rows[t].capacity
  {
  }

  lemma {:induction false} ServeFirstCapacity(cfg: Config, o: Outcome, n: nat, input: Input, t: nat)
    requires Shaped(cfg, o.state) && ShapedInput(cfg, input) && n <= cfg.numTargets && t < cfg.numTargets
    ensures ServeFirst(cfg, o, n, input).state.rows[t].capacity == o.state.rows[t].capacity
  {
    hide Serve;
    if n > 0 {
      ServeFirstCapacity(cfg, o, n - 1, input, t);
      ServeKeepsCapacity(cfg, ServeFirst(cfg, o, n - 1, input), n - 1, input.inside[n - 1], input.draw, t);
    }
  }

  lemma StepKeepsCapacity(cfg: Config, s: State, input: Input, t: nat)
    requires Shaped(cfg, s) && ShapedInput(cfg, input) && t < cfg.numTargets
    ensures Step(cfg, s, input).rows[t].capacity == s.rows[t].capacity
    ensures AssignGoals(cfg, s, input).state.rows[t].capacity == s.rows[t].capacity
  {
    hide ServeFirst;
    ServeFirstCapacity(cfg, Opened(s, input.tracked), cfg.numTargets, input, t);
  }

  lemma {:induction false} LoadFirstCapacity(cfg: Config, s: State, n: nat, order: nat -> seq<nat>, redraw: nat -> nat, t: nat)
    requires Shaped(cfg, s) && n <= cfg.numTargets && t < cfg.numTargets && forall i :: IsPermutation(order(i), NUM_WAREHOUSES)
    ensures LoadFirst(cfg, s, n, order, redraw).rows[t].capacity == s.rows[t].capacity
  {
    hide IsPermutation, Stocked;
    if n > 0 {
      LoadFirstCapacity(cfg, s, n - 1, order, redraw, t);
    }
  }

  /** A reset gives two units of capacity to the heavy targets, and one to all others. */
  lemma CapacitiesAtFirst(cfg: Config, input: ResetInput, t: nat)
    requires ValidConfig(cfg) && ValidReset(cfg, input) && t < cfg.numTargets
    ensures Initial(cfg, input).rows[t].capacity == if t in input.heavy then 2 else 1
  {
    hide AssignGoals, LoadFirst, Filled, AllStocked, IsPermutation;
    StepKeepsCapacity(cfg, Blank(cfg, input.heavy, Filled(cfg, input.rounds)), input.view, t);
    LoadFirstCapacity(cfg, FirstAssignment(cfg, input), cfg.numTargets, input.order, input.redraw, t);
  }
}
