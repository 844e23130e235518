/** What every step of the cargo economy keeps. */
module CargoInvariants {
  import opened Integers
  import opened Sums
  import opened CargoEconomy

  /** The weight a target carries, zero when it is not loaded. */
  function Weight(r: Row): nat {
    if 0 <= r.goal < |r.bits| then r.bits[r.goal] else 0
  }

  /** The bounty a target has already lost on its present load. */
  function Debt(cfg: Config, r: Row): int {
    if 0 <= r.goal then Weight(r) * cfg.bountyScale - r.bounty else 0
  }

  function Debts(cfg: Config, rows: seq<Row>): seq<int> {
    seq(|rows|, t requires 0 <= t < |rows| => Debt(cfg, rows[t]))
  }

  /** What the targets carry to warehouse w. */
  function InTransit(rows: seq<Row>, w: nat): seq<int> {
    seq(|rows|, t requires 0 <= t < |rows| => if w < |rows[t].bits| then rows[t].bits[w] else 0)
  }

  /** All views of one load agree. */
  predicate Agree(cfg: Config, r: Row) {
    && ShapedRow(r)
    && 1 <= r.capacity <= 2
    && r.entityBits == r.bits
    && (r.goal == -1 ==> r.bits == Zeros() && r.freight == 0 && r.bounty == 0)
    && (0 <= r.goal ==>
          && 1 <= r.bits[r.goal] <= r.capacity
          && r.bits == Zeros()[r.goal := r.bits[r.goal]]
          && r.freight == r.bits[r.goal] * cfg.freightScale
          && 0 <= r.bounty <= r.bits[r.goal] * cfg.bountyScale)
  }

  /** A load worth full at first has lost one unit of bounty for each tracked step,
      except possibly for the step in which it was taken. */
  predicate OnTheClock(cfg: Config, r: Row, trackedSteps: nat) {
    0 <= r.goal ==>
      var full := Weight(r) * cfg.bountyScale;
      && Max(0, full - trackedSteps) <= r.bounty
      && (r.bounty <= Max(0, full - trackedSteps + 1))
  }

  predicate RowInvariant(cfg: Config, r: Row, tracked: bool) {
    && Agree(cfg, r)
    && OnTheClock(cfg, r, r.tracked + Bit(tracked))
    && r.tracked <= r.steps
  }

  /** No warehouse holds cargo for itself. */
  predicate NoSelfCargo(remaining: seq<seq<nat>>) {
    forall w :: 0 <= w < |remaining| && w < |remaining[w]| ==> remaining[w][w] == 0
  }

  /** A warehouse a target believes empty is empty. */
  predicate SoundKnowledge(s: State) {
    forall t, w :: 0 <= t < |s.rows| && 0 <= w < |s.rows[t].empty| && w < |s.remaining| ==>
      s.rows[t].empty[w] ==> !Stocked(s.remaining[w])
  }

  /** What a warehouse awaits is what others still store for it plus what is under way to it. */
  predicate Conserved(s: State) {
    forall w {:trigger s.awaiting[w]} :: 0 <= w < |s.awaiting| ==>
      s.awaiting[w] == Sum(Column(s.remaining, w)) + Sum(InTransit(s.rows, w))
  }

  /** Each delivered unit is worth its freight plus or minus a full bounty. */
  predicate PaidFairly(cfg: Config, delivered: int, delayed: int) {
    && 0 <= delivered
    && delivered * (cfg.freightScale - cfg.bountyScale) <= delayed
    && delayed <= delivered * (cfg.freightScale + cfg.bountyScale)
  }

  /** The invariant, also in the middle of a call: tracked says whose tracked steps
      have not been counted yet. */
  ghost predicate MidInvariant(cfg: Config, o: Outcome, total: int, tracked: seq<bool>) {
    var s := o.state;
    && Shaped(cfg, s)
    && |tracked| == cfg.numTargets
    && (forall t :: 0 <= t < cfg.numTargets ==> RowInvariant(cfg, s.rows[t], tracked[t]))
    && NoSelfCargo(s.remaining)
    && SoundKnowledge(s)
    && Conserved(s)
    && s.delivered + Sum(s.awaiting) == total
    && PaidFairly(cfg, s.delivered, s.delayed + o.delayed)
    && s.dense + o.dense == s.delayed + o.delayed - Sum(Debts(cfg, s.rows))
  }

  function NoneTracked(cfg: Config): seq<bool> {
    seq(cfg.numTargets, t requires 0 <= t < cfg.numTargets => false)
  }

  /** The invariant between calls; total is the cargo the episode started with. */
  ghost predicate Invariant(cfg: Config, s: State, total: int) {
    MidInvariant(cfg, Outcome(s, 0, 0), total, NoneTracked(cfg))
  }

  // ------------------------------------------------------ the parts of a call

  /** How sums over the targets move when one row changes. */
  lemma RowUpdate(cfg: Config, rows: seq<Row>, t: nat, r: Row, w: nat)
    requires t < |rows| && |rows[t].bits| == |r.bits| == NUM_WAREHOUSES && w < NUM_WAREHOUSES
    ensures Sum(InTransit(rows[t := r], w)) == Sum(InTransit(rows, w)) - rows[t].bits[w] + r.bits[w]
    ensures Sum(Debts(cfg, rows[t := r])) == Sum(Debts(cfg, rows)) - Debt(cfg, rows[t]) + Debt(cfg, r)
  {
    assert InTransit(rows[t := r], w) == InTransit(rows, w)[t := r.bits[w]];
    SumUpdate(InTransit(rows, w), t, r.bits[w]);
    assert Debts(cfg, rows[t := r]) == Debts(cfg, rows)[t := Debt(cfg, r)];
    SumUpdate(Debts(cfg, rows), t, Debt(cfg, r));
  }

  /** Taking cargo out of one cell lowers one column sum. */
  lemma CellUpdate(remaining: seq<seq<nat>>, i: nat, j: nat, v: nat, w: nat)
    requires ShapedStock(remaining) && i < NUM_WAREHOUSES && j < NUM_WAREHOUSES && w < NUM_WAREHOUSES
    ensures Sum(Column(SetCell(remaining, i, j, v), w))
         == Sum(Column(remaining, w)) + (if w == j then v - remaining[i][j] else 0)
  {
    var u := SetCell(remaining, i, j, v);
    if w == j {
      assert Column(u, w) == Column(remaining, w)[i := v];
      SumUpdate(Column(remaining, w), i, v);
    } else {
      assert Column(u, w) == Column(remaining, w);
    }
  }

  /** A row that has just been loaded, its counters at zero. */
  lemma LoadedRowIsFresh(cfg: Config, r: Row, goal: nat, weight: nat, tracked: bool)
    requires ValidConfig(cfg) && Agree(cfg, r) && r.goal == -1 && r.tracked == 0
    requires goal < NUM_WAREHOUSES && 1 <= weight <= r.capacity
    ensures RowInvariant(cfg, LoadedRow(cfg, r, goal, weight), tracked)
    ensures Debt(cfg, LoadedRow(cfg, r, goal, weight)) == 0
  {
    assert weight == 1 || weight == 2;
    assert 0 <= weight * cfg.bountyScale;
  }

  lemma TakeLoadConserves(cfg: Config, s: State, t: nat, w: nat, raw: nat)
    requires Shaped(cfg, s) && t < cfg.numTargets && w < NUM_WAREHOUSES && Stocked(s.remaining[w])
    requires s.rows[t].bits == Zeros() && Conserved(s)
    ensures Conserved(TakeLoad(cfg, s, t, w, raw))
  {
    var s' := TakeLoad(cfg, s, t, w, raw);
    var goal := Choice(s.remaining[w], raw);
    var weight := Min(s.rows[t].capacity, s.remaining[w][goal]);
    var r' := LoadedRow(cfg, s.rows[t], goal, weight);
    forall v {:trigger s'.awaiting[v]} | 0 <= v < |s'.awaiting|
      ensures s'.awaiting[v] == Sum(Column(s'.remaining, v)) + Sum(InTransit(s'.rows, v))
    {
      RowUpdate(cfg, s.rows, t, r', v);
      CellUpdate(s.remaining, w, goal, s.remaining[w][goal] - weight, v);
    }
  }

  lemma TakeLoadKeepsStock(cfg: Config, s: State, t: nat, w: nat, raw: nat)
    requires Shaped(cfg, s) && t < cfg.numTargets && w < NUM_WAREHOUSES && Stocked(s.remaining[w])
    requires NoSelfCargo(s.remaining) && SoundKnowledge(s)
    ensures var s' := TakeLoad(cfg, s, t, w, raw); NoSelfCargo(s'.remaining) && SoundKnowledge(s')
  {
    var s' := TakeLoad(cfg, s, t, w, raw);
    StockOnlyShrinks(s.remaining, s'.remaining);
  }

  /** An unloaded target that takes a load keeps the invariant. */
  lemma TakeLoadKeeps(cfg: Config, o: Outcome, t: nat, w: nat, raw: nat, total: int, tracked: seq<bool>)
    requires ValidConfig(cfg) && MidInvariant(cfg, o, total, tracked)
    requires t < cfg.numTargets && w < NUM_WAREHOUSES && Stocked(o.state.remaining[w])
    requires o.state.rows[t].goal == -1 && o.state.rows[t].tracked == 0
    ensures MidInvariant(cfg, o.(state := TakeLoad(cfg, o.state, t, w, raw)), total, tracked)
  {
    var s := o.state;
    var goal := Choice(s.remaining[w], raw);
    var weight := Min(s.rows[t].capacity, s.remaining[w][goal]);
    var r' := LoadedRow(cfg, s.rows[t], goal, weight);
    LoadedRowIsFresh(cfg, s.rows[t], goal, weight, tracked[t]);
    TakeLoadConserves(cfg, s, t, w, raw);
    TakeLoadKeepsStock(cfg, s, t, w, raw);
    RowUpdate(cfg, s.rows, t, r', 0);
    assert TakeLoad(cfg, s, t, w, raw).rows == s.rows[t := r'];
  }

  /** A load is as large as it can be: it fills the target or takes all that is left. */
  lemma TakeLoadIsMaximal(cfg: Config, s: State, t: nat, w: nat, raw: nat)
    requires Shaped(cfg, s) && t < cfg.numTargets && w < NUM_WAREHOUSES && Stocked(s.remaining[w])
    ensures var s' := TakeLoad(cfg, s, t, w, raw);
      var goal := s'.rows[t].goal;
      && 0 <= goal < NUM_WAREHOUSES && 0 < s.remaining[w][goal]
      && Weight(s'.rows[t]) + s'.remaining[w][goal] == s.remaining[w][goal]
      && Weight(s'.rows[t]) <= s.rows[t].capacity
      && (Weight(s'.rows[t]) == s.rows[t].capacity || s'.remaining[w][goal] == 0)
  {
  }

  lemma StockOnlyShrinks(before: seq<seq<nat>>, after: seq<seq<nat>>)
    requires ShapedStock(before) && ShapedStock(after)
    requires forall i, j {:trigger after[i][j]} :: 0 <= i < NUM_WAREHOUSES && 0 <= j < NUM_WAREHOUSES ==> after[i][j] <= before[i][j]
    ensures forall w :: 0 <= w < NUM_WAREHOUSES && Stocked(after[w]) ==> Stocked(before[w])
  {
  }

  lemma ClearedRowIsFresh(cfg: Config, r: Row, tracked: bool)
    requires ValidConfig(cfg) && Agree(cfg, r)
    ensures RowInvariant(cfg, ClearedRow(r), tracked) && Debt(cfg, ClearedRow(r)) == 0
  {
  }

  /** Clearing a row that carries nothing keeps the invariant. */
  lemma ClearKeeps(cfg: Config, o: Outcome, t: nat, total: int, tracked: seq<bool>)
    requires ValidConfig(cfg) && MidInvariant(cfg, o, total, tracked)
    requires t < cfg.numTargets && o.state.rows[t].goal == -1
    ensures MidInvariant(cfg, o.(state := Clear(o.state, t)), total, tracked)
  {
    var s := o.state;
    var r' := ClearedRow(s.rows[t]);
    ClearedRowIsFresh(cfg, s.rows[t], tracked[t]);
    forall w | 0 <= w < NUM_WAREHOUSES
      ensures Sum(InTransit(s.rows[t := r'], w)) == Sum(InTransit(s.rows, w))
    {
      RowUpdate(cfg, s.rows, t, r', w);
    }
    RowUpdate(cfg, s.rows, t, r', 0);
  }

  lemma DeliverConserves(cfg: Config, o: Outcome, t: nat)
    requires Shaped(cfg, o.state) && t < cfg.numTargets && Conserved(o.state)
    requires 0 <= o.state.rows[t].goal && Agree(cfg, o.state.rows[t])
    ensures var s' := Clear(Deliver(cfg, o, t).state, t);
      && Conserved(s')
      && s'.delivered + Sum(s'.awaiting) == o.state.delivered + Sum(o.state.awaiting)
  {
    hide Sum, OnTheClock, Debt;
    var s := o.state;
    var r := s.rows[t];
    var s' := Clear(Deliver(cfg, o, t).state, t);
    forall v {:trigger s'.awaiting[v]} | 0 <= v < |s'.awaiting|
      ensures s'.awaiting[v] == Sum(Column(s'.remaining, v)) + Sum(InTransit(s'.rows, v))
    {
      RowUpdate(cfg, s.rows, t, ClearedRow(r), v);
      assert s.awaiting[v] == Sum(Column(s.remaining, v)) + Sum(InTransit(s.rows, v));
    }
    SumUpdate(s.awaiting, r.goal, s.awaiting[r.goal] - r.bits[r.goal]);
  }

  /** The delayed reward of one delivery is fair. */
  lemma DeliveryIsFair(cfg: Config, r: Row, delivered: int, delayed: int)
    requires ValidConfig(cfg) && Agree(cfg, r) && 0 <= r.goal && PaidFairly(cfg, delivered, delayed)
    ensures PaidFairly(cfg, delivered + Weight(r), delayed + r.freight + r.bounty - (Weight(r) * cfg.bountyScale - r.bounty))
  {
    var low, high := cfg.freightScale - cfg.bountyScale, cfg.freightScale + cfg.bountyScale;
    var w := Weight(r);
    assert (delivered + w) * low == delivered * low + w * low;
    assert (delivered + w) * high == delivered * high + w * high;
    assert w * low == w * cfg.freightScale - w * cfg.bountyScale;
    assert w * high == w * cfg.freightScale + w * cfg.bountyScale;
  }

  /** A delivery, with the row cleared after it, keeps the invariant. */
  lemma DeliverKeeps(cfg: Config, o: Outcome, t: nat, total: int, tracked: seq<bool>)
    requires ValidConfig(cfg) && MidInvariant(cfg, o, total, tracked)
    requires t < cfg.numTargets && 0 <= o.state.rows[t].goal
    ensures var paid := Deliver(cfg, o, t); MidInvariant(cfg, paid.(state := Clear(paid.state, t)), total, tracked)
  {
    hide Agree, OnTheClock, Conserved, PaidFairly, Sum;
    var s := o.state;
    var r := s.rows[t];
    ClearedRowIsFresh(cfg, r, tracked[t]);
    DeliverConserves(cfg, o, t);
    DeliveryIsFair(cfg, r, s.delivered, s.delayed + o.delayed);
    RowUpdate(cfg, s.rows, t, ClearedRow(r), 0);
  }

  /** Looking around changes nothing but the knowledge of one target, and keeps it sound. */
  lemma LookKeeps(cfg: Config, o: Outcome, t: nat, inside: seq<bool>, total: int, tracked: seq<bool>)
    requires MidInvariant(cfg, o, total, tracked) && t < cfg.numTargets && |inside| == NUM_WAREHOUSES
    ensures MidInvariant(cfg, o.(state := Look(cfg, o.state, t, inside)), total, tracked)
  {
    hide RowInvariant, Conserved, PaidFairly, Sum, Debt, Stocked;
    var s := o.state;
    var s' := Look(cfg, s, t, inside);
    var r, r' := s.rows[t], s'.rows[t];
    assert r' == r.(empty := r'.empty) && |r'.empty| == NUM_WAREHOUSES;
    LookKeepsRow(cfg, r, r'.empty, tracked[t]);
    assert forall i :: 0 <= i < cfg.numTargets && i != t ==> s'.rows[i] == s.rows[i];
    assert Debts(cfg, s'.rows) == Debts(cfg, s.rows);
    SameBits(s, s');
  }

  lemma LookKeepsRow(cfg: Config, r: Row, empty: seq<bool>, tracked: bool)
    requires RowInvariant(cfg, r, tracked) && |empty| == NUM_WAREHOUSES
    ensures RowInvariant(cfg, r.(empty := empty), tracked) && Debt(cfg, r.(empty := empty)) == Debt(cfg, r)
  {
  }

  /** Conservation depends only on the bits of the targets. */
  lemma SameBits(s: State, s': State)
    requires |s.rows| == |s'.rows| && s'.remaining == s.remaining && s'.awaiting == s.awaiting
    requires forall t :: 0 <= t < |s.rows| ==> s'.rows[t].bits == s.rows[t].bits
    ensures Conserved(s) ==> Conserved(s')
  {
    forall w: nat
      ensures InTransit(s'.rows, w) == InTransit(s.rows, w)
    {
    }
  }

  /** Serving one target keeps the invariant. */
  lemma ServeKeeps(cfg: Config, o: Outcome, t: nat, inside: seq<bool>, draw: (nat, nat) -> nat, total: int, tracked: seq<bool>)
    requires ValidConfig(cfg) && MidInvariant(cfg, o, total, tracked)
    requires t < cfg.numTargets && |inside| == NUM_WAREHOUSES
    ensures MidInvariant(cfg, Serve(cfg, o, t, inside, draw), total, tracked)
  {
    hide Deliver, TakeLoad, Look, RowInvariant;
    var goal := o.state.rows[t].goal;
    if 0 <= goal {
      if inside[goal] {
        DeliverKeeps(cfg, o, t, total, tracked);
        var paid := Deliver(cfg, o, t);
        var cleared := paid.(state := Clear(paid.state, t));
        if Stocked(cleared.state.remaining[goal]) {
          TakeLoadKeeps(cfg, cleared, t, goal, draw(t, goal), total, tracked);
        }
      }
    } else if FlatNonzero(inside) != [] {
      ClearKeeps(cfg, o, t, total, tracked);
      var cleared := o.(state := Clear(o.state, t));
      var w := FirstStocked(FlatNonzero(inside), cleared.state.remaining);
      if w < NUM_WAREHOUSES {
        TakeLoadKeeps(cfg, cleared, t, w, draw(t, w), total, tracked);
      }
    }
    LookKeeps(cfg, Trade(cfg, o, t, inside, draw), t, inside, total, tracked);
  }

  lemma {:induction false} ServeFirstKeeps(cfg: Config, o: Outcome, n: nat, input: Input, total: int, tracked: seq<bool>)
    requires ValidConfig(cfg) && MidInvariant(cfg, o, total, tracked)
    requires n <= cfg.numTargets && ShapedInput(cfg, input)
    ensures MidInvariant(cfg, ServeFirst(cfg, o, n, input), total, tracked)
  {
    hide Serve;
    if n > 0 {
      ServeFirstKeeps(cfg, o, n - 1, input, total, tracked);
      ServeKeeps(cfg, ServeFirst(cfg, o, n - 1, input), n - 1, input.inside[n - 1], input.draw, total, tracked);
    }
  }

  /** The dense reward pays out exactly the bounty that decays. */
  lemma {:induction false} DecayIsPaid(cfg: Config, rows: seq<Row>, tracked: seq<bool>, after: seq<Row>)
    requires |rows| == |tracked| == |after|
    requires forall t :: 0 <= t < |rows| ==> Agree(cfg, rows[t]) && after[t] == DecayedRow(rows[t], tracked[t])
    ensures Sum(Debts(cfg, after)) == Sum(Debts(cfg, rows)) + Paying(rows, tracked)
  {
    if rows != [] {
      DecayIsPaid(cfg, rows[1..], tracked[1..], after[1..]);
      assert Debts(cfg, rows)[1..] == Debts(cfg, rows[1..]);
      assert Debts(cfg, after)[1..] == Debts(cfg, after[1..]);
    }
  }

  lemma {:induction false} PayingLast(rows: seq<Row>, tracked: seq<bool>)
    requires |rows| == |tracked| > 0
    ensures var n := |rows| - 1; Paying(rows, tracked) == Paying(rows[..n], tracked[..n]) + Bit(tracked[n] && 0 < rows[n].bounty)
  {
    var n := |rows| - 1;
    if n > 0 {
      PayingLast(rows[1..], tracked[1..]);
      assert rows[1..][..n - 1] == rows[..n][1..] && tracked[1..][..n - 1] == tracked[..n][1..];
    }
  }

  lemma DecayedRowIsSound(cfg: Config, r: Row, tracked: bool)
    requires ValidConfig(cfg) && RowInvariant(cfg, r, false)
    ensures RowInvariant(cfg, DecayedRow(r, tracked), tracked)
  {
  }

  lemma DecayKeepsRows(cfg: Config, s: State, tracked: seq<bool>, total: int)
    requires ValidConfig(cfg) && Invariant(cfg, s, total) && |tracked| == cfg.numTargets
    ensures forall t :: 0 <= t < cfg.numTargets ==> RowInvariant(cfg, Decay(s, tracked).rows[t], tracked[t])
  {
    forall t | 0 <= t < cfg.numTargets
      ensures RowInvariant(cfg, Decay(s, tracked).rows[t], tracked[t])
    {
      assert RowInvariant(cfg, s.rows[t], NoneTracked(cfg)[t]);
      DecayedRowIsSound(cfg, s.rows[t], tracked[t]);
    }
  }

  lemma DecayKeeps(cfg: Config, s: State, tracked: seq<bool>, total: int)
    requires ValidConfig(cfg) && Invariant(cfg, s, total) && |tracked| == cfg.numTargets
    ensures MidInvariant(cfg, Opened(s, tracked), total, tracked)
  {
    var s' := Decay(s, tracked);
    DecayKeepsRows(cfg, s, tracked, total);
    SameLoads(s, s');
    DecayIsPaid(cfg, s.rows, tracked, s'.rows);
  }

  /** Conservation and knowledge depend only on the bits and beliefs of the targets. */
  lemma SameLoads(s: State, s': State)
    requires |s.rows| == |s'.rows| && s'.remaining == s.remaining && s'.awaiting == s.awaiting
    requires forall t :: 0 <= t < |s.rows| ==> s'.rows[t].bits == s.rows[t].bits && s'.rows[t].empty == s.rows[t].empty
    ensures Conserved(s) ==> Conserved(s')
    ensures SoundKnowledge(s) ==> SoundKnowledge(s')
  {
    hide Conserved, Stocked;
    SameBits(s, s');
  }

  predicate SameCargo(r: Row, r': Row) {
    r'.goal == r.goal && r'.bits == r.bits && r'.bounty == r.bounty && r'.empty == r.empty
  }

  /** Flags and counters are not part of any sum. */
  lemma RelabelKeeps(cfg: Config, o: Outcome, rows: seq<Row>, total: int, tracked: seq<bool>, tracked': seq<bool>)
    requires MidInvariant(cfg, o, total, tracked) && |rows| == |tracked'| == cfg.numTargets
    requires forall t :: 0 <= t < cfg.numTargets ==> RowInvariant(cfg, rows[t], tracked'[t])
    requires forall t :: 0 <= t < cfg.numTargets ==> SameCargo(o.state.rows[t], rows[t])
    ensures MidInvariant(cfg, o.(state := o.state.(rows := rows)), total, tracked')
  {
    assert Debts(cfg, rows) == Debts(cfg, o.state.rows);
    SameLoads(o.state, o.state.(rows := rows));
  }

  lemma MarkingKeeps(cfg: Config, before: seq<Row>, o: Outcome, total: int, tracked: seq<bool>)
    requires MidInvariant(cfg, o, total, tracked) && |before| == cfg.numTargets
    ensures MidInvariant(cfg, o.(state := o.state.(rows := MarkDone(before, o.state.rows))), total, tracked)
  {
    RelabelKeeps(cfg, o, MarkDone(before, o.state.rows), total, tracked, tracked);
  }

  /** One goal assignment: the invariant holds up to the tracked steps not yet counted. */
  lemma AssignGoalsKeeps(cfg: Config, s: State, input: Input, total: int)
    requires ValidConfig(cfg) && Invariant(cfg, s, total) && ShapedInput(cfg, input)
    ensures MidInvariant(cfg, AssignGoals(cfg, s, input), total, input.tracked)
  {
    DecayKeeps(cfg, s, input.tracked, total);
    ServeFirstKeeps(cfg, Opened(s, input.tracked), cfg.numTargets, input, total, input.tracked);
    MarkingKeeps(cfg, s.rows, ServeFirst(cfg, Opened(s, input.tracked), cfg.numTargets, input), total, input.tracked);
  }

  lemma TickKeeps(cfg: Config, o: Outcome, total: int, tracked: seq<bool>)
    requires ValidConfig(cfg) && MidInvariant(cfg, o, total, tracked)
    ensures MidInvariant(cfg, o.(state := o.state.(rows := Ticked(o.state.rows, tracked))), total, NoneTracked(cfg))
  {
    RelabelKeeps(cfg, o, Ticked(o.state.rows, tracked), total, tracked, NoneTracked(cfg));
  }

  /** Every step keeps the whole invariant. */
  lemma StepKeeps(cfg: Config, s: State, input: Input, total: int)
    requires ValidConfig(cfg) && Invariant(cfg, s, total) && ShapedInput(cfg, input)
    ensures Invariant(cfg, Step(cfg, s, input), total)
  {
    AssignGoalsKeeps(cfg, s, input, total);
    var o := AssignGoals(cfg, s, input);
    TickKeeps(cfg, o, total, input.tracked);
    AssignGoalsOnlyPays(cfg, s, input);
    BookRewards(cfg, Outcome(o.state.(rows := Ticked(o.state.rows, input.tracked)), o.dense, o.delayed), total, NoneTracked(cfg));
  }

  /** Moving the rewards of a call into the running totals keeps the invariant. */
  lemma BookRewards(cfg: Config, o: Outcome, total: int, tracked: seq<bool>)
    requires MidInvariant(cfg, o, total, tracked)
    ensures var s := o.state;
      MidInvariant(cfg, Outcome(s.(dense := s.dense + o.dense, delayed := s.delayed + o.delayed, clock := s.clock + 1), 0, 0), total, tracked)
  {
  }

  /** The running totals are not touched before the end of a step. */
  lemma AssignGoalsOnlyPays(cfg: Config, s: State, input: Input)
    requires Shaped(cfg, s) && ShapedInput(cfg, input)
    ensures var s' := AssignGoals(cfg, s, input).state; s'.dense == s.dense && s'.delayed == s.delayed && s'.clock == s.clock
  {
    ServeFirstOnlyPays(cfg, Opened(s, input.tracked), cfg.numTargets, input);
  }

  lemma {:induction false} ServeFirstOnlyPays(cfg: Config, o: Outcome, n: nat, input: Input)
    requires Shaped(cfg, o.state) && n <= cfg.numTargets && ShapedInput(cfg, input)
    ensures var s' := ServeFirst(cfg, o, n, input).state;
      s'.dense == o.state.dense && s'.delayed == o.state.delayed && s'.clock == o.state.clock
  {
    if n > 0 {
      ServeFirstOnlyPays(cfg, o, n - 1, input);
    }
  }
}
